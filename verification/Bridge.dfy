/** Pushers, sessions, replies, deletions and restarts over the outbox rows. */
module Bridge {
  // A step is one statement or one registry operation.  The statements do not look at
  // a row's old status, so every interleaving of them has to be considered.

  import opened Wrappers
  import opened Outbox

  type RowId = nat
  type SessionId = nat
  type PusherId = nat

  datatype SessionPc = Registered | Live | Closing | Unregistered | Gone

  datatype Session = Session(adapter: Adapter, pc: SessionPc)

  datatype PusherPc = Between | Marked(id: RowId) | SendFailed

  /** `batch` are the rows of the query this pusher is working through. */
  datatype Pusher = Pusher(adapter: Adapter, batch: seq<RowId>, pc: PusherPc)

  /** `inserted`, `acked` and `fails` only record history: every row as it was
      inserted, the rows acknowledged, and the Fail replies applied per row. */
  datatype State = State(
    rows: map<RowId, Row>, registry: map<Adapter, SessionId>,
    sessions: map<SessionId, Session>, pushers: map<PusherId, Pusher>,
    inserted: map<RowId, Row>, acked: set<RowId>, fails: map<RowId, nat>)

  datatype Event =
    | Insert(row: Row)
    | Register(sid: SessionId, adapter: Adapter)
    | AckDelivered(sid: SessionId)
    | AckLost(sid: SessionId)
    | Close(sid: SessionId)
    | Unregister(sid: SessionId)
    | CloseReset(sid: SessionId)
    | CloseResetFails(sid: SessionId)
    | AckReply(id: RowId, now: int)
    | FailReply(id: RowId, reason: string, retryAfter: Option<int>)
    | StartPush(pid: PusherId, adapter: Adapter, batch: seq<RowId>)
    | Mark(pid: PusherId, now: int)
    | Skip(pid: PusherId)                    // the payload does not parse, or marking fails
    | Send(pid: PusherId)
    | PushReset(pid: PusherId)
    | PushResetFails(pid: PusherId)
    | EndPush(pid: PusherId)
    | AbortPush(pid: PusherId)
    | DisconnectAll
    | Cleanup(ids: set<RowId>)
    | DropSessions(sessions: set<string>)    // a session is deleted, with all that descend from it
    | Restart
    | RestartUnreset                         // the reset at start-up fails

  /** One UPDATE over the stored rows. */
  function Exec(rows: map<RowId, Row>, u: Statement): map<RowId, Row> {
    map id | id in rows :: Apply(rows[id], u)
  }

  predicate InSessions(r: Row, sessions: set<string>) {
    r.session.Some? && r.session.value in sessions
  }

  /** The rows that belong to one of these sessions, whatever their status. */
  function RowsOf(rows: map<RowId, Row>, sessions: set<string>): set<RowId> {
    set id | id in rows && InSessions(rows[id], sessions)
  }

  // ------------------------------------------------------------ the transitions

  function Retired(s: State, sid: SessionId, pc: SessionPc): State
    requires sid in s.sessions
  {
    s.(sessions := s.sessions[sid := s.sessions[sid].(pc := pc)])
  }

  /** Statements of nobody's connection or push: inserts, replies and deletions. */
  ghost predicate StoreNext(s: State, e: Event, s': State) {
    match e
    case Insert(r) =>
      && r.id !in s.inserted
      && r == NewRow(r.id, r.adapter, r.capability, r.payload, r.session, r.parses, r.createdAt)
      && s' == s.(rows := s.rows[r.id := r], inserted := s.inserted[r.id := r], fails := s.fails[r.id := 0])
    case AckReply(id, now) =>
      s' == s.(rows := Exec(s.rows, SetSent(id, now)), acked := if id in s.rows then s.acked + {id} else s.acked)
    case FailReply(id, reason, retryAfter) =>
      s' == s.(rows := Exec(s.rows, SetFailed(id, reason, retryAfter)),
               fails := if id in s.rows && id in s.fails then s.fails[id := s.fails[id] + 1] else s.fails)
    case Cleanup(ids) =>
      && (forall id :: id in ids ==> id in s.rows && s.rows[id].status == Sent)
      && s' == s.(rows := s.rows - ids)
    case DropSessions(sessions) => s' == s.(rows := s.rows - RowsOf(s.rows, sessions))
    case _ => false
  }

  /** A session, from registration to the end of its cleanup. */
  ghost predicate SessionNext(s: State, e: Event, s': State) {
    match e
    case Register(sid, adapter) =>
      && sid !in s.sessions && adapter !in s.registry
      && s' == s.(registry := s.registry[adapter := sid], sessions := s.sessions[sid := Session(adapter, Registered)])
    case AckDelivered(sid) =>
      sid in s.sessions && s.sessions[sid].pc == Registered && s' == Retired(s, sid, Live)
    case AckLost(sid) =>
      && sid in s.sessions && s.sessions[sid].pc == Registered
      && var a := s.sessions[sid].adapter;
         s' == Retired(s, sid, Gone).(registry := s.registry - {a})
    case Close(sid) =>
      sid in s.sessions && s.sessions[sid].pc == Live && s' == Retired(s, sid, Closing)
    case Unregister(sid) =>
      && sid in s.sessions && s.sessions[sid].pc == Closing
      && s' == Retired(s, sid, Unregistered).(registry := s.registry - {s.sessions[sid].adapter})
    case CloseReset(sid) =>
      && sid in s.sessions && s.sessions[sid].pc == Unregistered
      && var a := s.sessions[sid].adapter;
         s' == Retired(s, sid, Gone).(rows := Exec(s.rows, ResetInflight(a)))
    case CloseResetFails(sid) =>
      && sid in s.sessions && s.sessions[sid].pc == Unregistered
      && s' == Retired(s, sid, Gone)
    case DisconnectAll => s' == s.(registry := map[])
    case _ => false
  }

  /** A pusher working through the rows it has read. */
  ghost predicate PusherNext(s: State, e: Event, s': State) {
    match e
    case StartPush(pid, adapter, batch) =>
      && pid !in s.pushers
      && (forall i :: 0 <= i < |batch| ==>
            batch[i] in s.rows && s.rows[batch[i]].adapter == adapter && s.rows[batch[i]].status != Sent)
      && s' == s.(pushers := s.pushers[pid := Pusher(adapter, batch, Between)])
    case Mark(pid, now) =>
      && pid in s.pushers && s.pushers[pid].pc == Between && s.pushers[pid].batch != []
      && var p := s.pushers[pid];
         s' == s.(rows := Exec(s.rows, SetInflight(p.batch[0], now)),
                  pushers := s.pushers[pid := Pusher(p.adapter, p.batch[1..], Marked(p.batch[0]))])
    case Skip(pid) =>
      && pid in s.pushers && s.pushers[pid].pc == Between && s.pushers[pid].batch != []
      && s' == s.(pushers := s.pushers[pid := s.pushers[pid].(batch := s.pushers[pid].batch[1..])])
    case Send(pid) =>
      && pid in s.pushers && s.pushers[pid].pc.Marked?
      && var p := s.pushers[pid];
         s' == s.(pushers := s.pushers[pid := p.(pc := if p.adapter in s.registry then Between else SendFailed)])
    case PushReset(pid) =>
      && pid in s.pushers && s.pushers[pid].pc == SendFailed
      && var p := s.pushers[pid];
         s' == s.(rows := Exec(s.rows, ResetInflight(p.adapter)),
                  pushers := s.pushers[pid := p.(pc := Between)])
    case PushResetFails(pid) =>
      && pid in s.pushers && s.pushers[pid].pc == SendFailed
      && var p := s.pushers[pid];
         s' == s.(pushers := s.pushers[pid := p.(pc := Between)])
    case EndPush(pid) =>
      && pid in s.pushers && s.pushers[pid].pc == Between && s' == s.(pushers := s.pushers - {pid})
    case AbortPush(pid) =>
      && pid in s.pushers && s' == s.(pushers := s.pushers - {pid})
    case _ => false
  }

  /** Everything in memory is gone; the rows are reset, or not. */
  ghost predicate RestartNext(s: State, e: Event, s': State) {
    match e
    case Restart =>
      s' == s.(rows := Exec(s.rows, ResetAllInflight), registry := map[], sessions := map[], pushers := map[])
    case RestartUnreset => s' == s.(registry := map[], sessions := map[], pushers := map[])
    case _ => false
  }

  ghost predicate Next(s: State, e: Event, s': State) {
    StoreNext(s, e, s') || SessionNext(s, e, s') || PusherNext(s, e, s') || RestartNext(s, e, s')
  }

  const EMPTY := State(map[], map[], map[], map[], map[], {}, map[])

  ghost predicate NextAt(ss: seq<State>, es: seq<Event>, i: nat)
    requires i < |es| && |ss| == |es| + 1
  {
    Next(ss[i], es[i], ss[i + 1])
  }

  ghost predicate IsRun(ss: seq<State>, es: seq<Event>) {
    && |ss| == |es| + 1 && ss[0] == EMPTY
    && forall i :: 0 <= i < |es| ==> NextAt(ss, es, i)
  }

  // ------------------------------------------------------------- no stranding

  ghost predicate SessionOpen(s: State, adapter: Adapter) {
    exists sid :: sid in s.sessions && s.sessions[sid].adapter == adapter && s.sessions[sid].pc != Gone
  }

  ghost predicate MidPush(s: State, adapter: Adapter) {
    exists pid :: pid in s.pushers && s.pushers[pid].adapter == adapter && s.pushers[pid].pc != Between
  }

  ghost predicate RegistryOk(s: State) {
    forall a :: a in s.registry ==>
      && s.registry[a] in s.sessions && s.sessions[s.registry[a]].adapter == a
      && s.sessions[s.registry[a]].pc != Unregistered && s.sessions[s.registry[a]].pc != Gone
  }

  predicate InflightAt(s: State, adapter: Adapter) {
    exists id :: id in s.rows && s.rows[id].adapter == adapter && s.rows[id].status == Inflight
  }

  ghost predicate RowsKnown(s: State) {
    forall id :: id in s.rows ==>
      id in s.inserted && s.rows[id].id == id && s.rows[id].adapter == s.inserted[id].adapter
  }

  /** The rows a pusher works through are its adapter's. */
  ghost predicate BatchesKnown(s: State) {
    forall pid, i :: pid in s.pushers && 0 <= i < |s.pushers[pid].batch| ==>
      && s.pushers[pid].batch[i] in s.inserted
      && s.inserted[s.pushers[pid].batch[i]].adapter == s.pushers[pid].adapter
  }

  ghost predicate PushersOk(s: State) {
    RowsKnown(s) && BatchesKnown(s)
  }

  /** Someone is left who will reset the adapter's inflight rows. */
  ghost predicate Guarded(s: State, adapter: Adapter) {
    SessionOpen(s, adapter) || MidPush(s, adapter)
  }

  /** An inflight row with nobody connected and no push in the middle of a row. */
  ghost predicate Stranded(s: State, adapter: Adapter) {
    InflightAt(s, adapter) && !Guarded(s, adapter)
  }

  // What each kind of step leaves alone.

  lemma StoreFrame(s: State, e: Event, s': State)
    requires StoreNext(s, e, s')
    ensures s'.registry == s.registry && s'.sessions == s.sessions && s'.pushers == s.pushers
    ensures !e.StartPush?
  {}

  lemma SessionFrame(s: State, e: Event, s': State)
    requires SessionNext(s, e, s')
    ensures s'.pushers == s.pushers && s'.inserted == s.inserted && s'.acked == s.acked && s'.fails == s.fails
    ensures !e.Insert? && !e.AckReply? && !e.FailReply? && !e.Cleanup? && !e.DropSessions? && !e.StartPush?
  {}

  lemma PusherFrame(s: State, e: Event, s': State)
    requires PusherNext(s, e, s')
    ensures s'.registry == s.registry && s'.sessions == s.sessions
    ensures s'.inserted == s.inserted && s'.acked == s.acked && s'.fails == s.fails
    ensures !e.Insert? && !e.AckReply? && !e.FailReply? && !e.Cleanup? && !e.DropSessions?
  {}

  lemma SessionRegistered(s: State, e: Event, s': State, a: Adapter)
    requires RegistryOk(s) && SessionNext(s, e, s') && a in s'.registry
    ensures s'.registry[a] in s'.sessions && s'.sessions[s'.registry[a]].adapter == a
    ensures s'.sessions[s'.registry[a]].pc != Unregistered && s'.sessions[s'.registry[a]].pc != Gone
  {
    if !(e.Register? && e.adapter == a) {
      assert a in s.registry && s'.registry[a] == s.registry[a];
    }
  }

  lemma RegistryKept(s: State, e: Event, s': State)
    requires RegistryOk(s) && Next(s, e, s')
    ensures RegistryOk(s')
  {
    forall a | a in s'.registry
      ensures s'.registry[a] in s'.sessions && s'.sessions[s'.registry[a]].adapter == a
      ensures s'.sessions[s'.registry[a]].pc != Unregistered && s'.sessions[s'.registry[a]].pc != Gone
    {
      if StoreNext(s, e, s') { StoreFrame(s, e, s'); }
      else if SessionNext(s, e, s') { SessionRegistered(s, e, s', a); }
      else if PusherNext(s, e, s') { PusherFrame(s, e, s'); }
    }
  }

  /** The UPDATE an event executes, if it does. */
  function StatementOf(s: State, e: Event): Option<Statement> {
    match e
    case AckReply(id, now) => Some(SetSent(id, now))
    case FailReply(id, reason, retryAfter) => Some(SetFailed(id, reason, retryAfter))
    case Mark(pid, now) =>
      if pid in s.pushers && s.pushers[pid].batch != [] then Some(SetInflight(s.pushers[pid].batch[0], now)) else None
    case PushReset(pid) => if pid in s.pushers then Some(ResetInflight(s.pushers[pid].adapter)) else None
    case CloseReset(sid) => if sid in s.sessions then Some(ResetInflight(s.sessions[sid].adapter)) else None
    case Restart => Some(ResetAllInflight)
    case _ => None
  }

  predicate Inserts(e: Event, id: RowId) {
    e.Insert? && e.row.id == id
  }

  predicate Drops(s: State, e: Event, id: RowId) {
    e.DropSessions? && id in s.rows && s.rows[id].session.Some? && s.rows[id].session.value in e.sessions
  }

  /** One row across one step. */
  predicate RowStep(s: State, e: Event, s': State, id: RowId) {
    if Inserts(e, id) then id !in s.rows && id in s'.rows && s'.rows[id] == e.row
    else if e.Cleanup? && id in e.ids then id !in s'.rows && id in s.rows && s.rows[id].status == Sent
    else if Drops(s, e, id) then id !in s'.rows
    else
      && (id in s'.rows <==> id in s.rows)
      && (id in s.rows ==>
            s'.rows[id] == if StatementOf(s, e).Some? then Apply(s.rows[id], StatementOf(s, e).value) else s.rows[id])
  }

  /** What is recorded about one row across one step. */
  predicate RecordStep(s: State, e: Event, s': State, id: RowId) {
    && (id in s'.acked <==> id in s.acked || (e.AckReply? && e.id == id && id in s.rows))
    && if Inserts(e, id)
       then && id !in s.inserted && id in s'.inserted && s'.inserted[id] == e.row && id in s'.fails && s'.fails[id] == 0
            && e.row == NewRow(id, e.row.adapter, e.row.capability, e.row.payload, e.row.session, e.row.parses,
                               e.row.createdAt)
       else && (id in s.inserted <==> id in s'.inserted) && (id in s.inserted ==> s'.inserted[id] == s.inserted[id])
            && (id in s.fails <==> id in s'.fails)
            && (id in s.fails ==>
                  s'.fails[id] == s.fails[id] + if e.FailReply? && e.id == id && id in s.rows then 1 else 0)
  }

  lemma StoreRow(s: State, e: Event, s': State, id: RowId)
    requires StoreNext(s, e, s') && (id in s.rows ==> id in s.inserted)
    ensures RowStep(s, e, s', id)
  {}

  lemma SessionRow(s: State, e: Event, s': State, id: RowId)
    requires SessionNext(s, e, s')
    ensures RowStep(s, e, s', id)
  {}

  lemma PusherRow(s: State, e: Event, s': State, id: RowId)
    requires PusherNext(s, e, s')
    ensures RowStep(s, e, s', id)
  {}

  lemma RowMoves(s: State, e: Event, s': State, id: RowId)
    requires Next(s, e, s') && (id in s.rows ==> id in s.inserted)
    ensures RowStep(s, e, s', id)
  {
    if StoreNext(s, e, s') { StoreRow(s, e, s', id); }
    else if SessionNext(s, e, s') { SessionRow(s, e, s', id); }
    else if PusherNext(s, e, s') { PusherRow(s, e, s', id); }
  }

  lemma StoreRecord(s: State, e: Event, s': State, id: RowId)
    requires StoreNext(s, e, s')
    ensures RecordStep(s, e, s', id)
  {}

  lemma RecordMoves(s: State, e: Event, s': State, id: RowId)
    requires Next(s, e, s')
    ensures RecordStep(s, e, s', id)
  {
    if StoreNext(s, e, s') { StoreRecord(s, e, s', id); }
    else if SessionNext(s, e, s') { SessionFrame(s, e, s'); }
    else if PusherNext(s, e, s') { PusherFrame(s, e, s'); }
  }

  lemma RowKnown(s: State, e: Event, s': State, id: RowId)
    requires RowStep(s, e, s', id) && RecordStep(s, e, s', id) && id in s'.rows
    requires id in s.rows ==>
      id in s.inserted && s.rows[id].id == id && s.rows[id].adapter == s.inserted[id].adapter
    ensures id in s'.inserted && s'.rows[id].id == id && s'.rows[id].adapter == s'.inserted[id].adapter
  {}

  lemma RowsKnownKept(s: State, e: Event, s': State)
    requires RowsKnown(s) && Next(s, e, s')
    ensures RowsKnown(s')
  {
    forall id | id in s'.rows
      ensures id in s'.inserted && s'.rows[id].id == id && s'.rows[id].adapter == s'.inserted[id].adapter
    {
      RowMoves(s, e, s', id);
      RecordMoves(s, e, s', id);
      RowKnown(s, e, s', id);
    }
  }

  lemma PushersKept(s: State, e: Event, s': State)
    requires PushersOk(s) && Next(s, e, s')
    ensures PushersOk(s')
  {
    RowsKnownKept(s, e, s');
    forall p, i | p in s'.pushers && 0 <= i < |s'.pushers[p].batch|
      ensures s'.pushers[p].batch[i] in s'.inserted
      ensures s'.inserted[s'.pushers[p].batch[i]].adapter == s'.pushers[p].adapter
    {
      BatchKept(s, e, s', p, i);
    }
  }

  /** One pusher across one step. */
  predicate PusherStep(s: State, e: Event, s': State, p: PusherId) {
    p in s'.pushers ==>
      if e.StartPush? && e.pid == p then
        && s'.pushers[p].adapter == e.adapter && s'.pushers[p].batch == e.batch
        && forall i :: 0 <= i < |e.batch| ==> e.batch[i] in s.rows && s.rows[e.batch[i]].adapter == e.adapter
      else
        && p in s.pushers && s'.pushers[p].adapter == s.pushers[p].adapter
        && (s'.pushers[p].batch == s.pushers[p].batch
            || (s.pushers[p].batch != [] && s'.pushers[p].batch == s.pushers[p].batch[1..]))
  }

  lemma PusherMovesOn(s: State, e: Event, s': State, p: PusherId)
    requires PusherNext(s, e, s')
    ensures PusherStep(s, e, s', p)
  {}

  lemma PusherMoves(s: State, e: Event, s': State, p: PusherId)
    requires Next(s, e, s')
    ensures PusherStep(s, e, s', p)
  {
    if StoreNext(s, e, s') { StoreFrame(s, e, s'); }
    else if SessionNext(s, e, s') { SessionFrame(s, e, s'); }
    else if PusherNext(s, e, s') { PusherMovesOn(s, e, s', p); }
  }

  lemma BatchWasKnown(s: State, e: Event, s': State, p: PusherId, i: nat)
    requires PushersOk(s) && PusherStep(s, e, s', p) && p in s'.pushers && i < |s'.pushers[p].batch|
    ensures var id := s'.pushers[p].batch[i]; id in s.inserted && s.inserted[id].adapter == s'.pushers[p].adapter
  {
    if !(e.StartPush? && e.pid == p) && s'.pushers[p].batch != s.pushers[p].batch {
      assert s'.pushers[p].batch[i] == s.pushers[p].batch[i + 1];
    }
  }

  lemma BatchKept(s: State, e: Event, s': State, p: PusherId, i: nat)
    requires PushersOk(s) && Next(s, e, s') && p in s'.pushers && i < |s'.pushers[p].batch|
    ensures s'.pushers[p].batch[i] in s'.inserted
    ensures s'.inserted[s'.pushers[p].batch[i]].adapter == s'.pushers[p].adapter
  {
    PusherMoves(s, e, s', p);
    BatchWasKnown(s, e, s', p, i);
    RecordMoves(s, e, s', s'.pushers[p].batch[i]);
  }

  /** No row of the adapter is inflight after its reset. */
  lemma ResetClears(s: State, s': State, adapter: Adapter)
    requires s'.rows == Exec(s.rows, ResetInflight(adapter)) || s'.rows == Exec(s.rows, ResetAllInflight)
    ensures !InflightAt(s', adapter)
  {}

  /** The session gives up without resetting its rows. */
  predicate QuitsSession(e: Event, sid: SessionId) {
    e.RestartUnreset? || ((e.AckLost? || e.CloseResetFails?) && e.sid == sid)
  }

  /** The push stops in the middle of a row without resetting it. */
  predicate QuitsPush(e: Event, pid: PusherId) {
    e.RestartUnreset? || ((e.AbortPush? || e.PushResetFails?) && e.pid == pid)
  }

  /** A lost HelloAck, an aborted push, or a reset that fails, for this adapter. */
  predicate Breaks(s: State, e: Event, adapter: Adapter) {
    match e
    case AckLost(sid) => sid in s.sessions && s.sessions[sid].adapter == adapter
    case CloseResetFails(sid) => sid in s.sessions && s.sessions[sid].adapter == adapter
    case AbortPush(pid) => pid in s.pushers && s.pushers[pid].adapter == adapter
    case PushResetFails(pid) => pid in s.pushers && s.pushers[pid].adapter == adapter
    case RestartUnreset => true
    case _ => false
  }

  /** Someone other than the one that gives up will reset the adapter's rows. */
  ghost predicate GuardedByOther(s: State, e: Event, adapter: Adapter) {
    || (exists sid :: sid in s.sessions && s.sessions[sid].adapter == adapter && s.sessions[sid].pc != Gone
                      && !QuitsSession(e, sid))
    || (exists pid :: pid in s.pushers && s.pushers[pid].adapter == adapter && s.pushers[pid].pc != Between
                      && !QuitsPush(e, pid))
  }

  /** A session that breaks off leaves exactly the others. */
  lemma SessionBreakLeaves(s: State, e: Event, s': State, adapter: Adapter)
    requires SessionNext(s, e, s') && Breaks(s, e, adapter)
    ensures s'.rows == s.rows && (Guarded(s', adapter) <==> GuardedByOther(s, e, adapter))
  {
    SessionFrame(s, e, s');
    assert e.AckLost? || e.CloseResetFails?;
    assert s'.sessions == s.sessions[e.sid := s.sessions[e.sid].(pc := Gone)];
    assert forall pid :: !QuitsPush(e, pid);
    assert MidPush(s', adapter) <==> MidPush(s, adapter);
    if sid :| sid in s.sessions && s.sessions[sid].adapter == adapter && s.sessions[sid].pc != Gone
              && !QuitsSession(e, sid)
    {
      assert sid in s'.sessions && s'.sessions[sid] == s.sessions[sid];
    }
    if sid :| sid in s'.sessions && s'.sessions[sid].adapter == adapter && s'.sessions[sid].pc != Gone {
      assert sid in s.sessions && !QuitsSession(e, sid);
    }
  }

  /** A push that breaks off leaves exactly the others. */
  lemma PushBreakLeaves(s: State, e: Event, s': State, adapter: Adapter)
    requires PusherNext(s, e, s') && Breaks(s, e, adapter)
    ensures s'.rows == s.rows && (Guarded(s', adapter) <==> GuardedByOther(s, e, adapter))
  {
    PusherFrame(s, e, s');
    assert e.AbortPush? || e.PushResetFails?;
    assert forall sid :: !QuitsSession(e, sid);
    assert SessionOpen(s', adapter) <==> SessionOpen(s, adapter);
    forall pid | pid != e.pid ensures pid in s'.pushers <==> pid in s.pushers {}
    if pid :| pid in s.pushers && s.pushers[pid].adapter == adapter && s.pushers[pid].pc != Between
              && !QuitsPush(e, pid)
    {
      assert pid in s'.pushers && s'.pushers[pid] == s.pushers[pid];
    }
    if pid :| pid in s'.pushers && s'.pushers[pid].adapter == adapter && s'.pushers[pid].pc != Between {
      assert pid in s.pushers && !QuitsPush(e, pid);
    }
  }

  lemma BreakLeaves(s: State, e: Event, s': State, adapter: Adapter)
    requires Next(s, e, s') && Breaks(s, e, adapter)
    ensures s'.rows == s.rows && (Guarded(s', adapter) <==> GuardedByOther(s, e, adapter))
  {
    if SessionNext(s, e, s') { SessionBreakLeaves(s, e, s', adapter); }
    else if PusherNext(s, e, s') { PushBreakLeaves(s, e, s', adapter); }
  }

  /** A guard survives every step except the reset that makes it unnecessary, and
      the breaks. */
  lemma GuardKept(s: State, e: Event, s': State, adapter: Adapter)
    requires RegistryOk(s) && Next(s, e, s') && Guarded(s, adapter) && !Breaks(s, e, adapter)
    ensures Guarded(s', adapter) || !InflightAt(s', adapter)
  {
    if StoreNext(s, e, s') {
      StoreFrame(s, e, s');
      SameGuard(s, s', adapter);
    } else if SessionNext(s, e, s') {
      SessionFrame(s, e, s');
      SessionGuard(s, e, s', adapter);
    } else if PusherNext(s, e, s') {
      PusherFrame(s, e, s');
      PusherGuard(s, e, s', adapter);
    } else {
      ResetClears(s, s', adapter);
    }
  }

  lemma SameGuard(s: State, s': State, adapter: Adapter)
    requires Guarded(s, adapter) && s'.sessions == s.sessions && s'.pushers == s.pushers
    ensures Guarded(s', adapter)
  {
    if SessionOpen(s, adapter) {
      var sid :| sid in s.sessions && s.sessions[sid].adapter == adapter && s.sessions[sid].pc != Gone;
      assert sid in s'.sessions;
    } else {
      var pid :| pid in s.pushers && s.pushers[pid].adapter == adapter && s.pushers[pid].pc != Between;
      assert pid in s'.pushers;
    }
  }

  /** One session across a session's step that is no break: it stays open, or its
      rows were reset. */
  lemma SessionCloses(s: State, e: Event, s': State, sid: SessionId)
    requires SessionNext(s, e, s') && sid in s.sessions && s.sessions[sid].pc != Gone
    requires !Breaks(s, e, s.sessions[sid].adapter)
    ensures var a := s.sessions[sid].adapter;
      || (sid in s'.sessions && s'.sessions[sid].adapter == a && s'.sessions[sid].pc != Gone)
      || s'.rows == Exec(s.rows, ResetInflight(a))
  {}

  lemma SessionGuard(s: State, e: Event, s': State, adapter: Adapter)
    requires SessionNext(s, e, s') && Guarded(s, adapter) && s'.pushers == s.pushers && !Breaks(s, e, adapter)
    ensures Guarded(s', adapter) || !InflightAt(s', adapter)
  {
    if SessionOpen(s, adapter) {
      var sid :| sid in s.sessions && s.sessions[sid].adapter == adapter && s.sessions[sid].pc != Gone;
      SessionCloses(s, e, s', sid);
    } else {
      var pid :| pid in s.pushers && s.pushers[pid].adapter == adapter && s.pushers[pid].pc != Between;
      assert pid in s'.pushers;
    }
    if s'.rows == Exec(s.rows, ResetInflight(adapter)) { ResetClears(s, s', adapter); }
  }

  /** One pusher across a pusher's step, likewise; a send that got through found a
      session open. */
  lemma PusherLeaves(s: State, e: Event, s': State, pid: PusherId)
    requires PusherNext(s, e, s') && pid in s.pushers && s.pushers[pid].pc != Between
    requires !Breaks(s, e, s.pushers[pid].adapter)
    ensures var a := s.pushers[pid].adapter;
      || (pid in s'.pushers && s'.pushers[pid].adapter == a && s'.pushers[pid].pc != Between)
      || a in s.registry || s'.rows == Exec(s.rows, ResetInflight(a))
  {}

  lemma RegisteredIsOpen(s: State, adapter: Adapter)
    requires RegistryOk(s)
    ensures adapter in s.registry ==> SessionOpen(s, adapter)
  {
    if adapter in s.registry { assert s.registry[adapter] in s.sessions; }
  }

  lemma PusherGuard(s: State, e: Event, s': State, adapter: Adapter)
    requires RegistryOk(s) && PusherNext(s, e, s') && Guarded(s, adapter) && !Breaks(s, e, adapter)
    requires s'.registry == s.registry && s'.sessions == s.sessions
    ensures Guarded(s', adapter) || !InflightAt(s', adapter)
  {
    RegisteredIsOpen(s, adapter);
    if SessionOpen(s, adapter) {
      var sid :| sid in s.sessions && s.sessions[sid].adapter == adapter && s.sessions[sid].pc != Gone;
      assert sid in s'.sessions;
    } else {
      var pid :| pid in s.pushers && s.pushers[pid].adapter == adapter && s.pushers[pid].pc != Between;
      PusherLeaves(s, e, s', pid);
    }
    if s'.rows == Exec(s.rows, ResetInflight(adapter)) { ResetClears(s, s', adapter); }
  }

  predicate Marks(s: State, e: Event, id: RowId) {
    e.Mark? && e.pid in s.pushers && s.pushers[e.pid].batch != [] && s.pushers[e.pid].batch[0] == id
  }

  lemma NewlyInflight(s: State, e: Event, s': State, id: RowId)
    requires RowStep(s, e, s', id) && RecordStep(s, e, s', id) && id in s'.rows && s'.rows[id].status == Inflight
    requires id in s.rows ==> s.rows[id].id == id && s.rows[id].status != Inflight
    ensures Marks(s, e, id) && id in s.rows && s'.rows[id].adapter == s.rows[id].adapter
  {}

  lemma MarkGuards(s: State, e: Event, s': State, id: RowId)
    requires Next(s, e, s') && PushersOk(s) && Marks(s, e, id) && id in s.rows
    ensures MidPush(s', s.rows[id].adapter)
  {
    assert PusherNext(s, e, s');
    assert s.pushers[e.pid].batch[0] == id;
    assert e.pid in s'.pushers && s'.pushers[e.pid].adapter == s.pushers[e.pid].adapter;
  }

  lemma InflightByMark(s: State, e: Event, s': State, id: RowId)
    requires RowStep(s, e, s', id) && RecordStep(s, e, s', id) && RowsKnown(s)
    requires id in s'.rows && s'.rows[id].status == Inflight
    ensures id in s.rows && s'.rows[id].adapter == s.rows[id].adapter
    ensures s.rows[id].status == Inflight || Marks(s, e, id)
  {
    if id in s.rows && s.rows[id].status == Inflight {
    } else {
      NewlyInflight(s, e, s', id);
    }
  }

  lemma RowWasInflight(s: State, e: Event, s': State, id: RowId)
    requires PushersOk(s) && Next(s, e, s') && id in s'.rows && s'.rows[id].status == Inflight
    ensures (id in s.rows && s.rows[id].status == Inflight && s.rows[id].adapter == s'.rows[id].adapter)
            || MidPush(s', s'.rows[id].adapter)
  {
    RowMoves(s, e, s', id);
    RecordMoves(s, e, s', id);
    InflightByMark(s, e, s', id);
    if s.rows[id].status != Inflight { MarkGuards(s, e, s', id); }
  }

  /** A row that is inflight after a step was so before, or a push is in the middle
      of it. */
  lemma InflightBefore(s: State, e: Event, s': State, adapter: Adapter)
    requires PushersOk(s) && Next(s, e, s') && InflightAt(s', adapter)
    ensures InflightAt(s, adapter) || MidPush(s', adapter)
  {
    var id :| id in s'.rows && s'.rows[id].adapter == adapter && s'.rows[id].status == Inflight;
    RowWasInflight(s, e, s', id);
  }

  /** A step strands rows of an adapter exactly when it is one of the breaks for it,
      some of its rows are inflight, and nobody else is left to reset them. */
  lemma StrandsExactlyWhen(s: State, e: Event, s': State, adapter: Adapter)
    requires RegistryOk(s) && PushersOk(s) && Next(s, e, s') && !Stranded(s, adapter)
    ensures Stranded(s', adapter)
            <==> Breaks(s, e, adapter) && InflightAt(s, adapter) && !GuardedByOther(s, e, adapter)
  {
    if Breaks(s, e, adapter) {
      BreakLeaves(s, e, s', adapter);
      assert InflightAt(s', adapter) <==> InflightAt(s, adapter);
    } else if Stranded(s', adapter) {
      InflightBefore(s, e, s', adapter);
      GuardKept(s, e, s', adapter);
    }
  }

  lemma {:induction false} SoundAlways(ss: seq<State>, es: seq<Event>, i: nat)
    requires IsRun(ss, es) && i < |ss|
    ensures RegistryOk(ss[i]) && PushersOk(ss[i])
  {
    if i > 0 {
      SoundAlways(ss, es, i - 1);
      assert NextAt(ss, es, i - 1);
      RegistryKept(ss[i - 1], es[i - 1], ss[i]);
      PushersKept(ss[i - 1], es[i - 1], ss[i]);
    }
  }

  /** Step `k` of a run breaks off for the adapter while some of its rows are
      inflight and nobody else is left to reset them. */
  ghost predicate StrandsAt(ss: seq<State>, es: seq<Event>, k: nat, adapter: Adapter)
    requires k < |es| && |ss| == |es| + 1
  {
    Breaks(ss[k], es[k], adapter) && InflightAt(ss[k], adapter) && !GuardedByOther(ss[k], es[k], adapter)
  }

  ghost predicate StrandedFrom(ss: seq<State>, k: nat, i: nat, adapter: Adapter)
    requires i < |ss|
  {
    forall m :: k < m <= i ==> Stranded(ss[m], adapter)
  }

  /** In every reachable state an adapter's rows are stranded exactly when one of the
      breaks stranded them and they have been stranded since. */
  lemma {:induction false} StrandedExactlySinceBreak(ss: seq<State>, es: seq<Event>, i: nat, adapter: Adapter)
    requires IsRun(ss, es) && i < |ss|
    ensures Stranded(ss[i], adapter)
            <==> exists k: nat :: k < i && StrandsAt(ss, es, k, adapter) && StrandedFrom(ss, k, i, adapter)
  {
    if i > 0 {
      var n := i - 1;
      StrandedExactlySinceBreak(ss, es, n, adapter);
      SoundAlways(ss, es, n);
      assert NextAt(ss, es, n);
      if !Stranded(ss[n], adapter) { StrandsExactlyWhen(ss[n], es[n], ss[i], adapter); }
      if Stranded(ss[i], adapter) {
        if Stranded(ss[n], adapter) {
          var k: nat :| k < n && StrandsAt(ss, es, k, adapter) && StrandedFrom(ss, k, n, adapter);
          assert StrandedFrom(ss, k, i, adapter);
        } else {
          assert StrandsAt(ss, es, n, adapter) && StrandedFrom(ss, n, i, adapter);
        }
      }
    }
  }

  /** So no row of the adapter is ever stranded in a run exactly when none of its
      steps breaks off at a moment when rows are inflight and nobody else is left. */
  lemma NeverStrandedExactly(ss: seq<State>, es: seq<Event>, adapter: Adapter)
    requires IsRun(ss, es)
    ensures (forall i :: 0 <= i < |ss| ==> !Stranded(ss[i], adapter))
            <==> forall k :: 0 <= k < |es| ==> !StrandsAt(ss, es, k, adapter)
  {
    if k :| 0 <= k < |es| && StrandsAt(ss, es, k, adapter) {
      SoundAlways(ss, es, k);
      assert NextAt(ss, es, k);
      if !Stranded(ss[k], adapter) { StrandsExactlyWhen(ss[k], es[k], ss[k + 1], adapter); }
    }
    if i :| 0 <= i < |ss| && Stranded(ss[i], adapter) {
      StrandedExactlySinceBreak(ss, es, i, adapter);
    }
  }

  /** In particular, with no open session, no push in the middle of a row and no break
      for the adapter so far, none of its rows is inflight. */
  lemma NoRowIsStranded(ss: seq<State>, es: seq<Event>, i: nat, adapter: Adapter)
    requires IsRun(ss, es) && i < |ss| && !SessionOpen(ss[i], adapter) && !MidPush(ss[i], adapter)
    requires forall k :: 0 <= k < i ==> !Breaks(ss[k], es[k], adapter)
    ensures !InflightAt(ss[i], adapter)
  {
    StrandedExactlySinceBreak(ss, es, i, adapter);
  }

  // ---------------------------------------------- each of the breaks does strand

  lemma Extend(ss: seq<State>, es: seq<Event>, e: Event, s: State)
    requires IsRun(ss, es) && Next(ss[|es|], e, s)
    ensures IsRun(ss + [s], es + [e])
  {
    var ss', es' := ss + [s], es + [e];
    forall i | 0 <= i < |es'| ensures NextAt(ss', es', i) {
      if i < |es| { assert NextAt(ss, es, i); }
    }
  }

  const A := Adapter("a")
  const NEW := NewRow(0, A, "send", "{}", Some("s"), true, 0)

  function OneRow(r: Row): State {
    EMPTY.(rows := map[0 := r], inserted := map[0 := NEW], fails := map[0 := 0])
  }

  function Shown(status: Status): Row {
    NEW.(status := status, sentAt := Some(0))
  }

  /** A registered session, and a row that one pusher has read. */
  lemma RowReadByPusher() returns (ss: seq<State>, es: seq<Event>)
    ensures IsRun(ss, es)
    ensures ss[|es|] == OneRow(NEW).(
      registry := map[A := 0], sessions := map[0 := Session(A, Registered)],
      pushers := map[0 := Pusher(A, [0], Between)])
  {
    var s1 := OneRow(NEW);
    var s2 := s1.(registry := map[A := 0], sessions := map[0 := Session(A, Registered)]);
    var s3 := s2.(pushers := map[0 := Pusher(A, [0], Between)]);
    ss, es := [EMPTY], [];
    Extend(ss, es, Insert(NEW), s1);
    ss, es := ss + [s1], es + [Insert(NEW)];
    Extend(ss, es, Register(0, A), s2);
    ss, es := ss + [s2], es + [Register(0, A)];
    Extend(ss, es, StartPush(0, A, [0]), s3);
    ss, es := ss + [s3], es + [StartPush(0, A, [0])];
  }

  lemma RowPushed() returns (ss: seq<State>, es: seq<Event>)
    ensures IsRun(ss, es)
    ensures ss[|es|] == OneRow(Shown(Inflight)).(
      registry := map[A := 0], sessions := map[0 := Session(A, Registered)],
      pushers := map[0 := Pusher(A, [], Between)])
  {
    ss, es := RowReadByPusher();
    var s3 := ss[|es|];
    var s4 := s3.(rows := map[0 := Shown(Inflight)], pushers := map[0 := Pusher(A, [], Marked(0))]);
    var s5 := s4.(pushers := map[0 := Pusher(A, [], Between)]);
    assert s3.pushers[0].batch[1..] == [] && Exec(s3.rows, SetInflight(0, 0)) == s4.rows;
    assert PusherNext(s3, Mark(0, 0), s4);
    Extend(ss, es, Mark(0, 0), s4);
    ss, es := ss + [s4], es + [Mark(0, 0)];
    assert PusherNext(s4, Send(0), s5);
    Extend(ss, es, Send(0), s5);
    ss, es := ss + [s5], es + [Send(0)];
  }

  /** A row pushed between registration and a HelloAck that cannot be delivered
      stays inflight with nobody connected. */
  lemma LostHelloAckStrands()
    ensures exists ss: seq<State>, es: seq<Event> ::
              IsRun(ss, es) && |es| > 0 && es[|es| - 1].AckLost? && Stranded(ss[|es|], A)
  {
    var ss, es := RowPushed();
    var s5 := ss[|es|];
    var s6 := s5.(sessions := map[0 := Session(A, Gone)], registry := map[]);
    assert Retired(s5, 0, Gone).sessions == s6.sessions && s5.registry - {A} == map[];
    Extend(ss, es, AckLost(0), s6);
    ss, es := ss + [s6], es + [AckLost(0)];
    assert 0 in s6.rows && s6.rows[0].adapter == A;
  }

  function Ended(pc: SessionPc): map<SessionId, Session> {
    map[0 := Session(A, pc)]
  }

  /** A restart whose reset fails strands it just as well. */
  lemma UnresetRestartStrands()
    ensures exists ss: seq<State>, es: seq<Event> ::
              IsRun(ss, es) && |es| > 0 && es[|es| - 1].RestartUnreset? && Stranded(ss[|es|], A)
  {
    var ss, es := RowPushed();
    var s5 := ss[|es|];
    var s6 := s5.(registry := map[], sessions := map[], pushers := map[]);
    assert RestartNext(s5, RestartUnreset, s6);
    Extend(ss, es, RestartUnreset, s6);
    ss, es := ss + [s6], es + [RestartUnreset];
    assert 0 in s6.rows && s6.rows[0].adapter == A;
  }

  /** A session of one row goes through its whole cleanup but the reset. */
  lemma SessionUnregisters(ss0: seq<State>, es0: seq<Event>) returns (ss: seq<State>, es: seq<Event>)
    requires IsRun(ss0, es0)
    requires ss0[|es0|].registry == map[A := 0] && ss0[|es0|].sessions == Ended(Registered)
    ensures IsRun(ss, es)
    ensures ss[|es|] == ss0[|es0|].(registry := map[], sessions := Ended(Unregistered))
  {
    ss, es := ss0, es0;
    var s0 := ss[|es|];
    var s1, s2 := s0.(sessions := Ended(Live)), s0.(sessions := Ended(Closing));
    var s3 := s0.(registry := map[], sessions := Ended(Unregistered));
    assert s0.registry - {A} == map[];
    assert SessionNext(s0, AckDelivered(0), s1) && SessionNext(s1, Close(0), s2);
    assert SessionNext(s2, Unregister(0), s3);
    Extend(ss, es, AckDelivered(0), s1);
    ss, es := ss + [s1], es + [AckDelivered(0)];
    Extend(ss, es, Close(0), s2);
    ss, es := ss + [s2], es + [Close(0)];
    Extend(ss, es, Unregister(0), s3);
    ss, es := ss + [s3], es + [Unregister(0)];
  }

  /** The reset at the end of a session fails. */
  lemma UnresetCloseStrands()
    ensures exists ss: seq<State>, es: seq<Event> ::
              IsRun(ss, es) && |es| > 0 && es[|es| - 1].CloseResetFails? && Stranded(ss[|es|], A)
  {
    var ss, es := RowPushed();
    ss, es := SessionUnregisters(ss, es);
    var s0 := ss[|es|];
    var s1 := s0.(sessions := Ended(Gone));
    assert SessionNext(s0, CloseResetFails(0), s1);
    Extend(ss, es, CloseResetFails(0), s1);
    ss, es := ss + [s1], es + [CloseResetFails(0)];
    assert 0 in s1.rows && s1.rows[0].adapter == A;
  }

  /** A pusher that read the row marks it after the session ended in good order. */
  lemma RowMarkedLate() returns (ss: seq<State>, es: seq<Event>)
    ensures IsRun(ss, es)
    ensures ss[|es|] == OneRow(Shown(Inflight)).(
      sessions := Ended(Gone), pushers := map[0 := Pusher(A, [], Marked(0))])
  {
    ss, es := RowReadByPusher();
    ss, es := SessionUnregisters(ss, es);
    var s0 := ss[|es|];
    var s1 := s0.(sessions := Ended(Gone));
    var s2 := s1.(rows := map[0 := Shown(Inflight)], pushers := map[0 := Pusher(A, [], Marked(0))]);
    assert Exec(s0.rows, ResetInflight(A)) == s0.rows;
    assert SessionNext(s0, CloseReset(0), s1);
    Extend(ss, es, CloseReset(0), s1);
    ss, es := ss + [s1], es + [CloseReset(0)];
    assert s1.pushers[0].batch[1..] == [] && Exec(s1.rows, SetInflight(0, 0)) == s2.rows;
    assert PusherNext(s1, Mark(0, 0), s2);
    Extend(ss, es, Mark(0, 0), s2);
    ss, es := ss + [s2], es + [Mark(0, 0)];
  }

  /** It is aborted before the send. */
  lemma AbortedPushStrands()
    ensures exists ss: seq<State>, es: seq<Event> ::
              IsRun(ss, es) && |es| > 0 && es[|es| - 1].AbortPush? && Stranded(ss[|es|], A)
  {
    var ss, es := RowMarkedLate();
    var s0 := ss[|es|];
    var s1 := s0.(pushers := map[]);
    assert s0.pushers - {0} == map[];
    assert PusherNext(s0, AbortPush(0), s1);
    Extend(ss, es, AbortPush(0), s1);
    ss, es := ss + [s1], es + [AbortPush(0)];
    assert 0 in s1.rows && s1.rows[0].adapter == A;
  }

  /** Or its send fails, and then its reset. */
  lemma UnresetPushStrands()
    ensures exists ss: seq<State>, es: seq<Event> ::
              IsRun(ss, es) && |es| > 0 && es[|es| - 1].PushResetFails? && Stranded(ss[|es|], A)
  {
    var ss, es := RowMarkedLate();
    var s0 := ss[|es|];
    var s1 := s0.(pushers := map[0 := Pusher(A, [], SendFailed)]);
    var s2 := s0.(pushers := map[0 := Pusher(A, [], Between)]);
    assert PusherNext(s0, Send(0), s1) && PusherNext(s1, PushResetFails(0), s2);
    Extend(ss, es, Send(0), s1);
    ss, es := ss + [s1], es + [Send(0)];
    Extend(ss, es, PushResetFails(0), s2);
    ss, es := ss + [s2], es + [PushResetFails(0)];
    assert 0 in s2.rows && s2.rows[0].adapter == A;
  }

  // ---------------------------------------------------------- a row once sent

  /** A sent row that is still stored leaves `sent` exactly when a pusher that read
      it earlier marks it, or a Fail reply for it arrives. */
  lemma SentLeavesExactlyBy(s: State, e: Event, s': State, id: RowId)
    requires Next(s, e, s') && id in s.rows && s.rows[id].status == Sent && id in s'.rows
    requires s.rows[id].id == id && id in s.inserted
    ensures s'.rows[id].status != Sent <==> Marks(s, e, id) || (e.FailReply? && e.id == id)
  {
    RowMoves(s, e, s', id);
    SentStep(s, e, s', id);
    if Marks(s, e, id) { assert StatementOf(s, e).Some?; }
  }

  lemma SentStep(s: State, e: Event, s': State, id: RowId)
    requires RowStep(s, e, s', id) && id in s.rows && s.rows[id].status == Sent && id in s'.rows && s.rows[id].id == id
    ensures s'.rows[id].status != Sent <==> Marks(s, e, id) || (e.FailReply? && e.id == id)
  {}

  /** A row is acknowledged that another pusher has read. */
  lemma RowAcked() returns (ss: seq<State>, es: seq<Event>)
    ensures IsRun(ss, es)
    ensures ss[|es|] == OneRow(Shown(Sent)).(
      registry := map[A := 0], sessions := map[0 := Session(A, Registered)],
      pushers := map[0 := Pusher(A, [0], Between)], acked := {0})
  {
    ss, es := RowReadByPusher();
    var s3 := ss[|es|];
    var s4 := s3.(rows := map[0 := Shown(Sent)], acked := {0});
    assert Exec(s3.rows, SetSent(0, 0)) == s4.rows;
    assert StoreNext(s3, AckReply(0, 0), s4);
    Extend(ss, es, AckReply(0, 0), s4);
    ss, es := ss + [s4], es + [AckReply(0, 0)];
  }

  /** So `sent` is not final: a second pusher that had read the row marks it
      inflight again after the acknowledgement. */
  lemma SentIsNotFinal()
    ensures exists ss: seq<State>, es: seq<Event> :: IsRun(ss, es) && |es| > 0
              && 0 in ss[|es| - 1].rows && ss[|es| - 1].rows[0].status == Sent
              && 0 in ss[|es|].rows && ss[|es|].rows[0].status == Inflight
  {
    var ss, es := RowAcked();
    var s4 := ss[|es|];
    var s5 := s4.(rows := map[0 := Shown(Inflight)], pushers := map[0 := Pusher(A, [], Marked(0))]);
    assert s4.pushers[0].batch[1..] == [] && Exec(s4.rows, SetInflight(0, 0)) == s5.rows;
    assert PusherNext(s4, Mark(0, 0), s5);
    Extend(ss, es, Mark(0, 0), s5);
    ss, es := ss + [s5], es + [Mark(0, 0)];
  }

  // ------------------------------------------------ what each event does to a row

  /** Put back in the queue, if it is inflight. */
  function Requeued(r: Row): Row {
    if r.status == Inflight then r.(status := Pending, sentAt := None) else r
  }

  /** A reply changes the row it names, a mark the row it is about to send, and a reset
      the inflight rows of its adapter; nothing else changes a row that stays stored. */
  function Changed(r: Row, s: State, e: Event, id: RowId): Row {
    match e
    case AckReply(i, now) => if i == id then r.(status := Sent, sentAt := Some(now)) else r
    case FailReply(i, reason, retryAfter) =>
      if i != id then r
      else r.(status := Failed, error := Some(reason), retryCount := 1 + r.retryCount, retryAfter := retryAfter)
    case Mark(p, now) =>
      if p in s.pushers && |s.pushers[p].batch| > 0 && s.pushers[p].batch[0] == id
      then r.(status := Inflight, sentAt := Some(now)) else r
    case PushReset(p) => if p in s.pushers && s.pushers[p].adapter == r.adapter then Requeued(r) else r
    case CloseReset(c) => if c in s.sessions && s.sessions[c].adapter == r.adapter then Requeued(r) else r
    case Restart => Requeued(r)
    case _ => r
  }

  lemma RowStepSays(s: State, e: Event, s': State, id: RowId)
    requires RowStep(s, e, s', id) && id in s.rows && id in s'.rows && s.rows[id].id == id
    ensures s'.rows[id] == Changed(s.rows[id], s, e, id)
  {}

  /** So it is with every step of the whole. */
  lemma EventsSay(s: State, e: Event, s': State, id: RowId)
    requires Next(s, e, s') && RowsKnown(s) && id in s.rows && id in s'.rows
    ensures s'.rows[id] == Changed(s.rows[id], s, e, id)
  {
    RowMoves(s, e, s', id);
    RowStepSays(s, e, s', id);
  }

  // ------------------------------------------------------------- conservation

  predicate RowOk(r: Row, first: Row, fails: nat, acked: bool) {
    && r.id == first.id && r.adapter == first.adapter && r.capability == first.capability
    && r.payload == first.payload && r.session == first.session && r.parses == first.parses
    && r.createdAt == first.createdAt
    && r.retryCount == fails
    && (r.status == Pending ==> r.sentAt.None?)
    && (r.status == Inflight || r.status == Sent ==> r.sentAt.Some?)
    && (r.status == Sent ==> acked)
  }

  predicate HistoryAt(s: State, id: RowId) {
    && (id in s.inserted <==> id in s.fails)
    && (id in s.rows ==>
          id in s.inserted && s.inserted[id].id == id && RowOk(s.rows[id], s.inserted[id], s.fails[id], id in s.acked))
  }

  predicate Cleans(s: State, e: Event, id: RowId) {
    e.Cleanup? && id in e.ids && id in s.rows && s.rows[id].status == Sent
  }

  /** What one step can do to one id. */
  predicate IdMove(s: State, e: Event, s': State, id: RowId) {
    && (id in s.acked ==> id in s'.acked)
    && (id in s'.acked && id !in s.acked ==> e.AckReply? && e.id == id && id in s.rows)
    && (id in s.inserted ==> id in s'.inserted)
    && (id in s'.inserted && id !in s.inserted ==> id in s'.rows)
    && (id in s.rows && id !in s'.rows <==> Drops(s, e, id) || Cleans(s, e, id))
    && (id in s.inserted && id !in s.rows ==> id !in s'.rows)
  }

  lemma IdMoves(s: State, e: Event, s': State, id: RowId)
    requires Next(s, e, s') && (id in s.rows ==> id in s.inserted)
    ensures IdMove(s, e, s', id)
  {
    RowMoves(s, e, s', id);
    RecordMoves(s, e, s', id);
  }

  lemma HistoryStep(s: State, e: Event, s': State, id: RowId)
    requires HistoryAt(s, id) && RowStep(s, e, s', id) && RecordStep(s, e, s', id)
    ensures HistoryAt(s', id)
  {}

  lemma HistoryKept(s: State, e: Event, s': State, id: RowId)
    requires HistoryAt(s, id) && Next(s, e, s')
    ensures HistoryAt(s', id)
  {
    RowMoves(s, e, s', id);
    RecordMoves(s, e, s', id);
    HistoryStep(s, e, s', id);
  }

  /** What an insert wrote never changes; the retry count is the number of Fail
      replies applied; a pending row carries no send time, an inflight or sent one
      does; a sent row was acknowledged. */
  lemma {:induction false} RowsKeepTheirHistory(ss: seq<State>, es: seq<Event>, i: nat, id: RowId)
    requires IsRun(ss, es) && i < |ss|
    ensures HistoryAt(ss[i], id)
  {
    if i > 0 {
      RowsKeepTheirHistory(ss, es, i - 1, id);
      assert NextAt(ss, es, i - 1);
      HistoryKept(ss[i - 1], es[i - 1], ss[i], id);
    }
  }

  predicate Acks(e: Event, id: RowId) {
    e.AckReply? && e.id == id
  }

  lemma {:induction false} AckedHasReply(ss: seq<State>, es: seq<Event>, i: nat, id: RowId)
    requires IsRun(ss, es) && i < |ss| && id in ss[i].acked
    ensures exists k :: 0 <= k < i && Acks(es[k], id) && id in ss[k].rows
  {
    if i > 0 {
      assert NextAt(ss, es, i - 1);
      RowsKeepTheirHistory(ss, es, i - 1, id);
      IdMoves(ss[i - 1], es[i - 1], ss[i], id);
      if id in ss[i - 1].acked { AckedHasReply(ss, es, i - 1, id); }
    }
  }

  predicate CleanedAt(ss: seq<State>, es: seq<Event>, k: nat, id: RowId)
    requires k < |es| && |ss| == |es| + 1
  {
    Cleans(ss[k], es[k], id)
  }

  /** Before step `i` an Ack for the row arrived, and later a cleanup removed it. */
  ghost predicate AckedThenCleaned(ss: seq<State>, es: seq<Event>, i: nat, id: RowId)
    requires i <= |es| && |ss| == |es| + 1
  {
    exists j: nat, k: nat :: j < k < i && Acks(es[j], id) && id in ss[j].rows && CleanedAt(ss, es, k, id)
  }

  predicate DroppedAt(ss: seq<State>, es: seq<Event>, k: nat, id: RowId)
    requires k < |es| && |ss| == |es| + 1
  {
    Drops(ss[k], es[k], id)
  }

  /** Before step `i` the session the row was inserted for was deleted, while the row
      was stored. */
  ghost predicate DroppedWithSession(ss: seq<State>, es: seq<Event>, i: nat, id: RowId)
    requires i <= |es| && |ss| == |es| + 1
  {
    exists k: nat :: k < i && DroppedAt(ss, es, k, id)
  }

  lemma CleanupFollowsAck(ss: seq<State>, es: seq<Event>, k: nat, id: RowId)
    requires IsRun(ss, es) && k < |es| && CleanedAt(ss, es, k, id)
    ensures AckedThenCleaned(ss, es, k + 1, id)
  {
    RowsKeepTheirHistory(ss, es, k, id);
    AckedHasReply(ss, es, k, id);
    var j: nat :| j < k && Acks(es[j], id) && id in ss[j].rows;
  }

  /** A row once gone does not come back. */
  lemma {:induction false} GoneForGood(ss: seq<State>, es: seq<Event>, k: nat, i: nat, id: RowId)
    requires IsRun(ss, es) && k <= i < |ss| && id in ss[k].inserted && id !in ss[k].rows
    ensures id in ss[i].inserted && id !in ss[i].rows
    decreases i
  {
    if k < i {
      GoneForGood(ss, es, k, i - 1, id);
      assert NextAt(ss, es, i - 1);
      IdMoves(ss[i - 1], es[i - 1], ss[i], id);
    }
  }

  lemma RemovedIsGone(ss: seq<State>, es: seq<Event>, k: nat, i: nat, id: RowId)
    requires IsRun(ss, es) && k < i < |ss| && (CleanedAt(ss, es, k, id) || DroppedAt(ss, es, k, id))
    ensures id in ss[i].inserted && id !in ss[i].rows
  {
    RowsKeepTheirHistory(ss, es, k, id);
    assert NextAt(ss, es, k);
    IdMoves(ss[k], es[k], ss[k + 1], id);
    GoneForGood(ss, es, k + 1, i, id);
  }

  lemma {:induction false} AbsentWasRemoved(ss: seq<State>, es: seq<Event>, i: nat, id: RowId)
    requires IsRun(ss, es) && i < |ss| && id in ss[i].inserted && id !in ss[i].rows
    ensures AckedThenCleaned(ss, es, i, id) || DroppedWithSession(ss, es, i, id)
  {
    if i > 0 {
      var n := i - 1;
      assert NextAt(ss, es, n);
      RowsKeepTheirHistory(ss, es, n, id);
      IdMoves(ss[n], es[n], ss[i], id);
      if id !in ss[n].rows {
        AbsentWasRemoved(ss, es, n, id);
        RemovedLongAgo(ss, es, n, id);
      } else if CleanedAt(ss, es, n, id) {
        CleanupFollowsAck(ss, es, n, id);
      } else {
        assert DroppedAt(ss, es, n, id);
      }
    }
  }

  lemma RemovedLongAgo(ss: seq<State>, es: seq<Event>, n: nat, id: RowId)
    requires n < |es| && |ss| == |es| + 1
    ensures AckedThenCleaned(ss, es, n, id) ==> AckedThenCleaned(ss, es, n + 1, id)
    ensures DroppedWithSession(ss, es, n, id) ==> DroppedWithSession(ss, es, n + 1, id)
  {
    if AckedThenCleaned(ss, es, n, id) {
      var j: nat, k: nat :| j < k < n && Acks(es[j], id) && id in ss[j].rows && CleanedAt(ss, es, k, id);
    }
    if DroppedWithSession(ss, es, n, id) {
      var k: nat :| k < n && DroppedAt(ss, es, k, id);
    }
  }

  /** A row that was inserted is gone exactly when a cleanup removed it after its Ack,
      or its session was deleted, acknowledged or not. */
  lemma GoneExactlyWhen(ss: seq<State>, es: seq<Event>, i: nat, id: RowId)
    requires IsRun(ss, es) && i < |ss|
    ensures id in ss[i].inserted && id !in ss[i].rows
            <==> AckedThenCleaned(ss, es, i, id) || DroppedWithSession(ss, es, i, id)
  {
    if id in ss[i].inserted && id !in ss[i].rows { AbsentWasRemoved(ss, es, i, id); }
    if AckedThenCleaned(ss, es, i, id) {
      var j: nat, k: nat :| j < k < i && Acks(es[j], id) && id in ss[j].rows && CleanedAt(ss, es, k, id);
      RemovedIsGone(ss, es, k, i, id);
    }
    if DroppedWithSession(ss, es, i, id) {
      var k: nat :| k < i && DroppedAt(ss, es, k, id);
      RemovedIsGone(ss, es, k, i, id);
    }
  }

  /** So a row can be lost before anyone acknowledged it, exactly by the deletion of
      the session it was inserted for. */
  lemma LostExactlyBySession(ss: seq<State>, es: seq<Event>, i: nat, id: RowId)
    requires IsRun(ss, es) && i < |ss| && id in ss[i].inserted && id !in ss[i].acked
    ensures id !in ss[i].rows <==> exists k: nat :: k < i && DropsOriginal(ss, es, k, id)
  {
    GoneExactlyWhen(ss, es, i, id);
    if j: nat, k: nat :| j < k < i && Acks(es[j], id) && id in ss[j].rows && CleanedAt(ss, es, k, id) {
      AckIsRecorded(ss, es, j, i, id);
    }
    forall k: nat | k < i ensures DropsOriginal(ss, es, k, id) <==> DroppedAt(ss, es, k, id) {
      RowsKeepTheirHistory(ss, es, k, id);
    }
    if DroppedWithSession(ss, es, i, id) {
      var k: nat :| k < i && DroppedAt(ss, es, k, id);
      assert DropsOriginal(ss, es, k, id);
    }
  }

  /** Step `k` deletes the session that the stored row was inserted for. */
  predicate DropsOriginal(ss: seq<State>, es: seq<Event>, k: nat, id: RowId)
    requires k < |es| && |ss| == |es| + 1
  {
    && es[k].DropSessions? && id in ss[k].rows && id in ss[k].inserted
    && ss[k].inserted[id].session.Some? && ss[k].inserted[id].session.value in es[k].sessions
  }

  lemma {:induction false} AckIsRecorded(ss: seq<State>, es: seq<Event>, j: nat, i: nat, id: RowId)
    requires IsRun(ss, es) && j < i < |ss| && Acks(es[j], id) && id in ss[j].rows
    ensures id in ss[i].acked
    decreases i
  {
    var n := i - 1;
    if j < n { AckIsRecorded(ss, es, j, n, id); }
    assert NextAt(ss, es, n);
    RecordMoves(ss[n], es[n], ss[i], id);
  }

  /** A pending row, which nobody has sent or acknowledged, goes with its session. */
  lemma PendingRowIsLost()
    ensures exists ss: seq<State>, es: seq<Event> :: IsRun(ss, es) && |es| > 0
              && 0 in ss[|es| - 1].rows && ss[|es| - 1].rows[0].status == Pending
              && 0 in ss[|es|].inserted && 0 !in ss[|es|].rows && 0 !in ss[|es|].acked
  {
    var s1 := OneRow(NEW);
    var s2 := s1.(rows := map[]);
    var ss, es: seq<Event> := [EMPTY], [];
    Extend(ss, es, Insert(NEW), s1);
    ss, es := ss + [s1], es + [Insert(NEW)];
    assert s1.rows - RowsOf(s1.rows, {"s"}) == map[];
    assert StoreNext(s1, DropSessions({"s"}), s2);
    Extend(ss, es, DropSessions({"s"}), s2);
    ss, es := ss + [s2], es + [DropSessions({"s"})];
  }
}
