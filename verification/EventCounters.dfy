/** Event sequences rebuilt from the conversation tables, and the counters kept
    beside them. */
module EventCounters {
  import opened Wrappers

  datatype Variant =
    | AgentStarted | AgentCompleted | AgentStopped | ErrorEvent | MessageAdded | ToolCall | ToolResult
    | Token | TurnComplete | DelegationStarted | DelegationCompleted

  datatype Status = Completed | Cancelled | Canceled | Stopped | Failed | Crashed | OtherStatus(token: string)
  datatype Role = Assistant | Tool | OtherRole(token: string)

  datatype Id = Id(text: string)

  datatype Session = Session(id: Id, status: Status)
  datatype Message = Message(session: Id, role: Role, hasContent: bool, calls: nat, results: nat)
  datatype Execution = Execution(status: Status, hasParent: bool, hasChild: bool)

  /** Events per session; an absent session has none. */
  type Log = map<Id, seq<Variant>>

  type Counter = map<Variant, nat>
  datatype Tally = Tally(calls: nat, results: nat)

  function Get(log: Log, id: Id): seq<Variant> {
    if id in log then log[id] else []
  }

  function Append(log: Log, id: Id, e: Variant): Log {
    log[id := Get(log, id) + [e]]
  }

  function Of(c: Counter, v: Variant): nat {
    if v in c then c[v] else 0
  }

  function Bump(c: Counter, v: Variant): Counter {
    c[v := Of(c, v) + 1]
  }

  function One(v: Variant, e: Variant): nat {
    if v == e then 1 else 0
  }

  function CountTo(es: seq<Variant>, n: nat, v: Variant): nat
    requires n <= |es|
  {
    if n == 0 then 0 else CountTo(es, n - 1, v) + One(v, es[n - 1])
  }

  function Count(es: seq<Variant>, v: Variant): nat {
    CountTo(es, |es|, v)
  }

  lemma {:induction false} CountPrefix(a: seq<Variant>, b: seq<Variant>, n: nat, v: Variant)
    requires n <= |a|
    ensures CountTo(a + b, n, v) == CountTo(a, n, v)
  {
    if n > 0 { CountPrefix(a, b, n - 1, v); }
  }

  lemma {:induction false} CountBeyond(a: seq<Variant>, b: seq<Variant>, n: nat, v: Variant)
    requires n <= |b|
    ensures CountTo(a + b, |a| + n, v) == CountTo(a, |a|, v) + CountTo(b, n, v)
  {
    if n == 0 { CountPrefix(a, b, |a|, v); } else { CountBeyond(a, b, n - 1, v); }
  }

  lemma CountAdds(a: seq<Variant>, b: seq<Variant>, v: Variant)
    ensures Count(a + b, v) == Count(a, v) + Count(b, v)
  {
    CountBeyond(a, b, |b|, v);
  }

  lemma CountOneMore(es: seq<Variant>, e: Variant, v: Variant)
    ensures Count(es + [e], v) == Count(es, v) + One(v, e)
  {
    CountPrefix(es, [e], |es|, v);
  }

  // ------------------------------------------------------ what is to be counted

  function TerminalOf(s: Status): Option<Variant> {
    match s
    case Completed => Some(AgentCompleted)
    case Cancelled => Some(AgentStopped)
    case Canceled => Some(AgentStopped)
    case Stopped => Some(AgentStopped)
    case Failed => Some(ErrorEvent)
    case Crashed => Some(ErrorEvent)
    case OtherStatus(_) => None
  }

  /** A tool message without recorded results stands for one. */
  function Results(m: Message): nat {
    if m.role.Tool? && m.results == 0 then 1 else m.results
  }

  function Times(v: Variant, n: nat): seq<Variant> {
    if n == 0 then [] else Times(v, n - 1) + [v]
  }

  function Reply(m: Message): seq<Variant> {
    if m.role.Assistant? && m.hasContent then [Token, TurnComplete] else []
  }

  function MessageEvents(m: Message): seq<Variant> {
    [MessageAdded] + (Times(ToolCall, m.calls) + (Times(ToolResult, Results(m)) + Reply(m)))
  }

  /** What the messages of one session contribute, in order. */
  function Said(ms: seq<Message>, id: Id): seq<Variant> {
    if ms == [] then []
    else
      var m := ms[|ms| - 1];
      Said(ms[..|ms| - 1], id) + if m.session == id then MessageEvents(m) else []
  }

  function StatusOf(ss: seq<Session>, id: Id): Option<Status> {
    if ss == [] then None
    else if ss[|ss| - 1].id == id then Some(ss[|ss| - 1].status) else StatusOf(ss[..|ss| - 1], id)
  }

  function Opening(ss: seq<Session>, id: Id): seq<Variant> {
    if StatusOf(ss, id).Some? then [AgentStarted] else []
  }

  function Ending(ss: seq<Session>, id: Id): seq<Variant> {
    var s := StatusOf(ss, id);
    if s.Some? && TerminalOf(s.value).Some? then [TerminalOf(s.value).value] else []
  }

  /** The events of one session: it starts, its messages follow, and it ends. */
  function Sequence(ss: seq<Session>, ms: seq<Message>, id: Id): seq<Variant> {
    Opening(ss, id) + (Said(ms, id) + Ending(ss, id))
  }

  /** What one execution is counted for, without an event in any sequence. */
  function ExecutionEvents(e: Execution): seq<Variant> {
    (if e.hasChild then [DelegationStarted] else [])
    + ((if e.hasParent && e.status.Completed? then [DelegationCompleted] else [])
       + (if e.status.Failed? || e.status.Crashed? then [ErrorEvent]
          else if e.status.Cancelled? || e.status.Canceled? || e.status.Stopped? then [AgentStopped] else []))
  }

  function AllExecutionEvents(es: seq<Execution>): seq<Variant> {
    if es == [] then [] else AllExecutionEvents(es[..|es| - 1]) + ExecutionEvents(es[|es| - 1])
  }

  // -------------------------------------------------------- what stands for what

  /** Which status ends a session with which event. */
  lemma EndingsSay(s: Status)
    ensures TerminalOf(s) == Some(AgentCompleted) <==> s == Completed
    ensures TerminalOf(s) == Some(AgentStopped) <==> s in {Cancelled, Canceled, Stopped}
    ensures TerminalOf(s) == Some(ErrorEvent) <==> s in {Failed, Crashed}
    ensures TerminalOf(s) == None <==> s.OtherStatus?
  {}

  /** A message is one message, its calls, its results, of which a tool message has at
      least one, and, for an assistant that said something, a token and a turn. */
  lemma MessagesSay(m: Message, v: Variant)
    ensures Count(MessageEvents(m), v) ==
      match v
      case MessageAdded => 1
      case ToolCall => m.calls
      case ToolResult => if m.role == Tool && m.results == 0 then 1 else m.results
      case Token => if m.role == Assistant && m.hasContent then 1 else 0
      case TurnComplete => if m.role == Assistant && m.hasContent then 1 else 0
      case _ => 0
    ensures MessageEvents(m)[0] == MessageAdded
    ensures m.role == Assistant && m.hasContent ==>
      var n := |MessageEvents(m)|; n >= 3 && MessageEvents(m)[n - 2] == Token && MessageEvents(m)[n - 1] == TurnComplete
  {
    var calls, replies := Times(ToolCall, m.calls), Times(ToolResult, Results(m));
    CountAdds([MessageAdded], calls + (replies + Reply(m)), v);
    CountAdds(calls, replies + Reply(m), v);
    CountAdds(replies, Reply(m), v);
    CountOneMore([], MessageAdded, v);
    assert [] + [MessageAdded] == [MessageAdded];
    CountOneMore([], Token, v);
    CountOneMore([Token], TurnComplete, v);
    assert [] + [Token] == [Token] && [Token] + [TurnComplete] == [Token, TurnComplete];
    TimesCount(ToolCall, m.calls, v);
    TimesCount(ToolResult, Results(m), v);
  }

  lemma CountOptional(c: bool, w: Variant, v: Variant)
    ensures Count(if c then [w] else [], v) == if c && w == v then 1 else 0
  {
    CountOneMore([], w, v);
    assert [] + [w] == [w];
  }

  /** What an execution is counted for. */
  lemma ExecutionsSay(e: Execution, v: Variant)
    ensures Count(ExecutionEvents(e), v) ==
      match v
      case DelegationStarted => if e.hasChild then 1 else 0
      case DelegationCompleted => if e.hasParent && e.status == Completed then 1 else 0
      case ErrorEvent => if e.status in {Failed, Crashed} then 1 else 0
      case AgentStopped => if e.status in {Cancelled, Canceled, Stopped} then 1 else 0
      case _ => 0
  {
    var started := if e.hasChild then [DelegationStarted] else [];
    var completed := if e.hasParent && e.status == Completed then [DelegationCompleted] else [];
    var failed, stopped := e.status in {Failed, Crashed}, e.status in {Cancelled, Canceled, Stopped};
    var ended := if failed then [ErrorEvent] else if stopped then [AgentStopped] else [];
    assert ExecutionEvents(e) == started + (completed + ended);
    CountAdds(started, completed + ended, v);
    CountAdds(completed, ended, v);
    CountOptional(e.hasChild, DelegationStarted, v);
    CountOptional(e.hasParent && e.status == Completed, DelegationCompleted, v);
    CountOptional(failed, ErrorEvent, v);
    CountOptional(stopped, AgentStopped, v);
  }

  // ----------------------------------------------------------- counting places

  predicate Shows(log: Log, id: Id, i: nat, v: Variant) {
    id in log && i < |log[id]| && log[id][i] == v
  }

  /** Where a variant occurs in the log. */
  ghost function Places(log: Log, v: Variant): set<(Id, nat)> {
    set id, i: nat | id in log && i < |log[id]| && Shows(log, id, i, v) :: (id, i)
  }

  ghost function Awaiting(terminal: map<Id, Variant>, v: Variant): set<Id> {
    set id | id in terminal && terminal[id] == v
  }

  /** Each counter is the number of occurrences and of endings still to be written. */
  ghost predicate Tallied(c: Counter, log: Log, terminal: map<Id, Variant>) {
    forall v :: Of(c, v) == |Places(log, v)| + |Awaiting(terminal, v)|
  }

  lemma PlaceMoves(log: Log, id: Id, e: Variant, v: Variant, p: (Id, nat))
    ensures p in Places(Append(log, id, e), v) <==> p in Places(log, v) || (e == v && p == (id, |Get(log, id)|))
  {
    assert Shows(Append(log, id, e), p.0, p.1, v)
        <==> Shows(log, p.0, p.1, v) || (e == v && p == (id, |Get(log, id)|));
  }

  lemma OneMorePlace(log: Log, id: Id, e: Variant, v: Variant)
    ensures |Places(Append(log, id, e), v)| == |Places(log, v)| + One(v, e)
  {
    var before, after, p := Places(log, v), Places(Append(log, id, e), v), (id, |Get(log, id)|);
    forall q ensures q in after <==> q in before || (e == v && q == p) { PlaceMoves(log, id, e, v, q); }
    if e == v { SetGrows(before, after, p); } else { assert after == before; }
  }

  lemma SetGrows(before: set<(Id, nat)>, after: set<(Id, nat)>, p: (Id, nat))
    requires p !in before && forall q :: q in after <==> q in before || q == p
    ensures |after| == |before| + 1
  {
    assert after == before + {p};
  }

  lemma OneMoreAwaiting(terminal: map<Id, Variant>, id: Id, e: Variant, v: Variant)
    requires id !in terminal
    ensures |Awaiting(terminal[id := e], v)| == |Awaiting(terminal, v)| + One(v, e)
  {
    if e == v {
      assert Awaiting(terminal[id := e], v) == Awaiting(terminal, v) + {id};
    } else {
      assert Awaiting(terminal[id := e], v) == Awaiting(terminal, v);
    }
  }

  /** An event appended and counted. */
  lemma TalliedAppend(c: Counter, log: Log, terminal: map<Id, Variant>, id: Id, e: Variant)
    requires Tallied(c, log, terminal)
    ensures Tallied(Bump(c, e), Append(log, id, e), terminal)
  {
    forall v ensures |Places(Append(log, id, e), v)| == |Places(log, v)| + One(v, e) { OneMorePlace(log, id, e, v); }
  }

  /** An ending counted before it is appended. */
  lemma TalliedAwait(c: Counter, log: Log, terminal: map<Id, Variant>, id: Id, e: Variant)
    requires Tallied(c, log, terminal) && id !in terminal
    ensures Tallied(Bump(c, e), log, terminal[id := e])
  {
    forall v ensures |Awaiting(terminal[id := e], v)| == |Awaiting(terminal, v)| + One(v, e) {
      OneMoreAwaiting(terminal, id, e, v);
    }
  }

  /** An ending appended at last. */
  lemma TalliedEnd(c: Counter, log: Log, terminal: map<Id, Variant>, id: Id)
    requires Tallied(c, log, terminal) && id in terminal
    ensures Tallied(c, Append(log, id, terminal[id]), terminal - {id})
  {
    forall v
      ensures |Places(Append(log, id, terminal[id]), v)| == |Places(log, v)| + One(v, terminal[id])
      ensures |Awaiting(terminal, v)| == |Awaiting(terminal - {id}, v)| + One(v, terminal[id])
    {
      OneMorePlace(log, id, terminal[id], v);
      OneMoreAwaiting(terminal - {id}, id, terminal[id], v);
      assert (terminal - {id})[id := terminal[id]] == terminal;
    }
  }

  // ------------------------------------------------------------------ the loops

  predicate UniqueIds(ss: seq<Session>) {
    forall i, j :: 0 <= i < j < |ss| ==> ss[i].id != ss[j].id
  }

  lemma {:induction false} StatusOfNew(ss: seq<Session>, id: Id)
    ensures StatusOf(ss, id).None? <==> forall i :: 0 <= i < |ss| ==> ss[i].id != id
  {
    if ss != [] { StatusOfNew(ss[..|ss| - 1], id); }
  }

  function EndingIn(terminal: map<Id, Variant>, id: Id): seq<Variant> {
    if id in terminal then [terminal[id]] else []
  }

  function Marked(terminal: map<Id, Variant>, s: Session): map<Id, Variant> {
    var ending := TerminalOf(s.status);
    if ending.Some? then terminal[s.id := ending.value] else terminal
  }

  lemma SessionStep(ss: seq<Session>, i: nat, log: Log, terminal: map<Id, Variant>, id: Id)
    requires UniqueIds(ss) && i < |ss|
    requires Get(log, id) == Opening(ss[..i], id) && EndingIn(terminal, id) == Ending(ss[..i], id)
    ensures StatusOf(ss[..i], ss[i].id).None?
    ensures StatusOf(ss[..i + 1], id) == if id == ss[i].id then Some(ss[i].status) else StatusOf(ss[..i], id)
    ensures Get(Append(log, ss[i].id, AgentStarted), id) == Opening(ss[..i + 1], id)
    ensures EndingIn(Marked(terminal, ss[i]), id) == Ending(ss[..i + 1], id)
  {
    assert ss[..i + 1][..i] == ss[..i];
    StatusOfNew(ss[..i], ss[i].id);
    if id == ss[i].id {
      assert Get(log, id) + [AgentStarted] == [AgentStarted];
    }
  }

  method CountSessions(ss: seq<Session>) returns (log: Log, terminal: map<Id, Variant>, c: Counter)
    requires UniqueIds(ss)
    ensures Tallied(c, log, terminal)
    ensures forall id :: id in log <==> StatusOf(ss, id).Some?
    ensures forall id :: Get(log, id) == Opening(ss, id)
    ensures forall id :: EndingIn(terminal, id) == Ending(ss, id)
  {
    log, terminal, c := map[], map[], map[];
    for i := 0 to |ss|
      invariant Tallied(c, log, terminal)
      invariant forall id :: id in log <==> StatusOf(ss[..i], id).Some?
      invariant forall id :: Get(log, id) == Opening(ss[..i], id)
      invariant forall id :: EndingIn(terminal, id) == Ending(ss[..i], id)
    {
      var s := ss[i];
      forall id
        ensures StatusOf(ss[..i + 1], id) == if id == s.id then Some(s.status) else StatusOf(ss[..i], id)
        ensures Get(Append(log, s.id, AgentStarted), id) == Opening(ss[..i + 1], id)
        ensures EndingIn(Marked(terminal, s), id) == Ending(ss[..i + 1], id)
      {
        SessionStep(ss, i, log, terminal, id);
      }
      SessionStep(ss, i, log, terminal, s.id);
      TalliedAppend(c, log, terminal, s.id, AgentStarted);
      log := Append(log, s.id, AgentStarted);
      c := Bump(c, AgentStarted);
      var ending := TerminalOf(s.status);
      if ending.Some? {
        assert EndingIn(terminal, s.id) == [];
        TalliedAwait(c, log, terminal, s.id, ending.value);
        terminal := terminal[s.id := ending.value];
        c := Bump(c, ending.value);
      }
    }
    assert ss[..|ss|] == ss;
  }

  /** `log'` is `log` with `es` appended to one session. */
  ghost predicate Extends(log: Log, log': Log, id: Id, es: seq<Variant>) {
    log' == log[id := Get(log, id) + es]
  }

  lemma ExtendsTwice(log: Log, log': Log, log'': Log, id: Id, a: seq<Variant>, b: seq<Variant>)
    requires Extends(log, log', id, a) && Extends(log', log'', id, b)
    ensures Extends(log, log'', id, a + b)
  {
    assert Get(log, id) + a + b == Get(log, id) + (a + b);
  }

  method Note(log: Log, c: Counter, ghost terminal: map<Id, Variant>, id: Id, e: Variant, n: nat)
    returns (log': Log, c': Counter)
    requires Tallied(c, log, terminal) && id in log
    ensures Tallied(c', log', terminal) && Extends(log, log', id, Times(e, n))
  {
    log', c' := log, c;
    assert Get(log, id) + [] == log[id];
    for k := 0 to n
      invariant Tallied(c', log', terminal) && Extends(log, log', id, Times(e, k))
    {
      TalliedAppend(c', log', terminal, id, e);
      ExtendsTwice(log, log', Append(log', id, e), id, Times(e, k), [e]);
      log', c' := Append(log', id, e), Bump(c', e);
    }
  }

  method CountReply(log: Log, c: Counter, ghost terminal: map<Id, Variant>, m: Message)
    returns (log': Log, c': Counter)
    requires Tallied(c, log, terminal) && m.session in log
    ensures Tallied(c', log', terminal) && Extends(log, log', m.session, Reply(m))
  {
    var id := m.session;
    log', c' := log, c;
    if m.role.Assistant? && m.hasContent {
      TalliedAppend(c', log', terminal, id, Token);
      log', c' := Append(log', id, Token), Bump(c', Token);
      TalliedAppend(c', log', terminal, id, TurnComplete);
      ExtendsTwice(log, log', Append(log', id, TurnComplete), id, [Token], [TurnComplete]);
      log', c' := Append(log', id, TurnComplete), Bump(c', TurnComplete);
      assert [Token] + [TurnComplete] == Reply(m);
    } else {
      assert Get(log, id) + Reply(m) == log[id];
    }
  }

  method CountMessage(log: Log, c: Counter, ghost terminal: map<Id, Variant>, m: Message)
    returns (log': Log, c': Counter, added: Tally)
    requires Tallied(c, log, terminal)
    ensures Tallied(c', log', terminal) && Extends(log, log', m.session, MessageEvents(m))
    ensures added == Tally(m.calls, Results(m))
  {
    var id, results := m.session, m.results;
    TalliedAppend(c, log, terminal, id, MessageAdded);
    var log1, c1 := Append(log, id, MessageAdded), Bump(c, MessageAdded);
    if m.role.Tool? && results == 0 { results := 1; }
    var log2, c2 := Note(log1, c1, terminal, id, ToolCall, m.calls);
    var log3, c3 := Note(log2, c2, terminal, id, ToolResult, results);
    added := Tally(m.calls, results);
    log', c' := CountReply(log3, c3, terminal, m);
    ExtendsTwice(log2, log3, log', id, Times(ToolResult, results), Reply(m));
    ExtendsTwice(log1, log2, log', id, Times(ToolCall, m.calls), Times(ToolResult, results) + Reply(m));
    ExtendsTwice(log, log1, log', id, [MessageAdded],
                 Times(ToolCall, m.calls) + (Times(ToolResult, results) + Reply(m)));
  }

  ghost predicate Talks(ms: seq<Message>, id: Id) {
    exists i :: 0 <= i < |ms| && ms[i].session == id
  }

  function TallyOf(es: seq<Variant>): Tally {
    Tally(Count(es, ToolCall), Count(es, ToolResult))
  }

  lemma {:induction false} TimesCount(e: Variant, n: nat, v: Variant)
    ensures Count(Times(e, n), v) == if v == e then n else 0
  {
    if n > 0 {
      TimesCount(e, n - 1, v);
      CountOneMore(Times(e, n - 1), e, v);
    }
  }

  lemma MessageCount(m: Message, v: Variant)
    requires v == ToolCall || v == ToolResult
    ensures Count(MessageEvents(m), v) == if v == ToolCall then m.calls else Results(m)
  {
    var calls, replies := Times(ToolCall, m.calls), Times(ToolResult, Results(m));
    CountAdds([MessageAdded], calls + (replies + Reply(m)), v);
    CountAdds(calls, replies + Reply(m), v);
    CountAdds(replies, Reply(m), v);
    NoneCounted([MessageAdded], v);
    NoneCounted(Reply(m), v);
    TimesCount(ToolCall, m.calls, v);
    TimesCount(ToolResult, Results(m), v);
  }

  lemma MessageTally(m: Message)
    ensures TallyOf(MessageEvents(m)) == Tally(m.calls, Results(m))
  {
    MessageCount(m, ToolCall);
    MessageCount(m, ToolResult);
  }

  function TallyIn(tools: map<Id, Tally>, id: Id): Tally {
    if id in tools then tools[id] else Tally(0, 0)
  }

  function Plus(a: Tally, b: Tally): Tally {
    Tally(a.calls + b.calls, a.results + b.results)
  }

  lemma TallyAdds(a: seq<Variant>, b: seq<Variant>)
    ensures TallyOf(a + b) == Plus(TallyOf(a), TallyOf(b))
  {
    var calls, results := Count(a + b, ToolCall), Count(a + b, ToolResult);
    CountAdds(a, b, ToolCall);
    CountAdds(a, b, ToolResult);
    assert TallyOf(a + b) == Tally(calls, results);
  }

  /** What is known after the first messages. */
  ghost predicate Caught(ms: seq<Message>, log: Log, log': Log, tools: map<Id, Tally>, id: Id) {
    Get(log', id) == Get(log, id) + Said(ms, id) && TallyIn(tools, id) == TallyOf(Said(ms, id))
  }

  lemma MessageElsewhere(ms: seq<Message>, i: nat, id: Id)
    requires i < |ms| && id != ms[i].session
    ensures Said(ms[..i + 1], id) == Said(ms[..i], id)
  {
    assert ms[..i + 1][..i] == ms[..i];
  }

  lemma SaidHere(ms: seq<Message>, i: nat)
    requires i < |ms|
    ensures Said(ms[..i + 1], ms[i].session) == Said(ms[..i], ms[i].session) + MessageEvents(ms[i])
  {
    assert ms[..i + 1][..i] == ms[..i];
  }

  lemma ExtendedBy(log: Log, log0: Log, log1: Log, id: Id, said: seq<Variant>, es: seq<Variant>)
    requires Get(log0, id) == Get(log, id) + said && Extends(log0, log1, id, es)
    ensures Get(log1, id) == Get(log, id) + (said + es)
  {}

  lemma MessageHere(ms: seq<Message>, i: nat, log: Log, log0: Log, log1: Log, tools: map<Id, Tally>)
    requires i < |ms|
    requires Caught(ms[..i], log, log0, tools, ms[i].session)
    requires Extends(log0, log1, ms[i].session, MessageEvents(ms[i]))
    ensures var id, m := ms[i].session, ms[i];
      Caught(ms[..i + 1], log, log1, tools[id := Plus(TallyIn(tools, id), Tally(m.calls, Results(m)))], id)
  {
    var id, said, es := ms[i].session, Said(ms[..i], ms[i].session), MessageEvents(ms[i]);
    SaidHere(ms, i);
    ExtendedBy(log, log0, log1, id, said, es);
    MessageTally(ms[i]);
    TallyAdds(said, es);
  }

  method CountMessages(ms: seq<Message>, log: Log, ghost terminal: map<Id, Variant>, c: Counter)
    returns (log': Log, c': Counter, tools: map<Id, Tally>)
    requires Tallied(c, log, terminal)
    ensures Tallied(c', log', terminal)
    ensures forall id :: id in log' <==> id in log || Talks(ms, id)
    ensures forall id :: id in tools <==> Talks(ms, id)
    ensures forall id :: Caught(ms, log, log', tools, id)
  {
    log', c', tools := log, c, map[];
    for i := 0 to |ms|
      invariant Tallied(c', log', terminal)
      invariant forall id :: id in log' <==> id in log || Talks(ms[..i], id)
      invariant forall id :: id in tools <==> Talks(ms[..i], id)
      invariant forall id :: Caught(ms[..i], log, log', tools, id)
    {
      var m := ms[i];
      ghost var log0, tools0 := log', tools;
      var added: Tally;
      log', c', added := CountMessage(log', c', terminal, m);
      tools := tools[m.session := Plus(TallyIn(tools, m.session), added)];
      TalksOneMore(ms, i);
      ghost var heard := ms[..i + 1];
      forall id ensures Caught(heard, log, log', tools, id) {
        assert Caught(ms[..i], log, log0, tools0, id);
        if id == m.session { MessageHere(ms, i, log, log0, log', tools0); } else { MessageElsewhere(ms, i, id); }
      }
    }
    assert ms[..|ms|] == ms;
  }

  lemma TalksOneMore(ms: seq<Message>, i: nat)
    requires i < |ms|
    ensures forall id :: Talks(ms[..i + 1], id) <==> Talks(ms[..i], id) || id == ms[i].session
  {
    forall id ensures Talks(ms[..i + 1], id) <==> Talks(ms[..i], id) || id == ms[i].session {
      if id == ms[i].session { assert ms[..i + 1][i].session == id; }
      if Talks(ms[..i], id) {
        var k :| 0 <= k < i && ms[..i][k].session == id;
        assert ms[..i + 1][k].session == id;
      }
    }
  }

  ghost predicate Raised(c: Counter, c': Counter, es: seq<Variant>) {
    forall v :: Of(c', v) == Of(c, v) + Count(es, v)
  }

  lemma RaisedOne(c: Counter, c': Counter, es: seq<Variant>, e: Variant)
    requires Raised(c, c', es)
    ensures Raised(c, Bump(c', e), es + [e])
  {
    forall v ensures Count(es + [e], v) == Count(es, v) + One(v, e) { CountOneMore(es, e, v); }
  }

  method CountExecution(e: Execution, c: Counter) returns (c': Counter)
    ensures Raised(c, c', ExecutionEvents(e))
  {
    c' := c;
    ghost var noted: seq<Variant> := [];
    if e.hasChild {
      RaisedOne(c, c', noted, DelegationStarted);
      c', noted := Bump(c', DelegationStarted), noted + [DelegationStarted];
    }
    if e.hasParent && e.status.Completed? {
      RaisedOne(c, c', noted, DelegationCompleted);
      c', noted := Bump(c', DelegationCompleted), noted + [DelegationCompleted];
    }
    if e.status.Failed? || e.status.Crashed? {
      RaisedOne(c, c', noted, ErrorEvent);
      c', noted := Bump(c', ErrorEvent), noted + [ErrorEvent];
    } else if e.status.Cancelled? || e.status.Canceled? || e.status.Stopped? {
      RaisedOne(c, c', noted, AgentStopped);
      c', noted := Bump(c', AgentStopped), noted + [AgentStopped];
    }
    assert noted == ExecutionEvents(e);
  }

  method CountExecutions(es: seq<Execution>, c: Counter) returns (c': Counter)
    ensures Raised(c, c', AllExecutionEvents(es))
  {
    c' := c;
    for i := 0 to |es|
      invariant Raised(c, c', AllExecutionEvents(es[..i]))
    {
      assert es[..i + 1][..i] == es[..i];
      forall v { CountAdds(AllExecutionEvents(es[..i]), ExecutionEvents(es[i]), v); }
      c' := CountExecution(es[i], c');
    }
    assert es[..|es|] == es;
  }

  ghost function Even(tools: map<Id, Tally>): set<Id> {
    set id | id in tools && tools[id].calls == tools[id].results
  }

  method CountPairs(tools: map<Id, Tally>) returns (balanced: nat, unbalanced: nat)
    ensures balanced == |Even(tools)| && balanced + unbalanced == |tools.Keys|
  {
    balanced, unbalanced := 0, 0;
    var rest := tools.Keys;
    ghost var done: set<Id> := {};
    while rest != {}
      invariant rest !! done && rest + done == tools.Keys
      invariant balanced == |done * Even(tools)| && balanced + unbalanced == |done|
      decreases rest
    {
      var id :| id in rest;
      if tools[id].calls == tools[id].results {
        assert (done + {id}) * Even(tools) == done * Even(tools) + {id};
        balanced := balanced + 1;
      } else {
        assert (done + {id}) * Even(tools) == done * Even(tools);
        unbalanced := unbalanced + 1;
      }
      rest, done := rest - {id}, done + {id};
    }
    assert done * Even(tools) == Even(tools);
  }

  method AppendEndings(log: Log, terminal: map<Id, Variant>, ghost c: Counter) returns (log': Log)
    requires Tallied(c, log, terminal) && forall id :: id in terminal ==> id in log
    ensures Tallied(c, log', map[])
    ensures log'.Keys == log.Keys
    ensures forall id :: Get(log', id) == Get(log, id) + EndingIn(terminal, id)
  {
    log' := log;
    var rest := terminal;
    while rest != map[]
      invariant Tallied(c, log', rest) && log'.Keys == log.Keys
      invariant forall id :: id in rest ==> id in terminal && rest[id] == terminal[id]
      invariant forall id :: id in rest ==> Get(log', id) == Get(log, id)
      invariant forall id :: id !in rest ==> Get(log', id) == Get(log, id) + EndingIn(terminal, id)
      decreases rest.Keys
    {
      var id :| id in rest;
      ghost var was := rest;
      TalliedEnd(c, log', rest, id);
      log' := Append(log', id, rest[id]);
      rest := rest - {id};
      assert id in was.Keys && rest.Keys == was.Keys - {id};
    }
  }

  // ---------------------------------------------------------------- guarantees

  ghost predicate IsKnown(ss: seq<Session>, ms: seq<Message>, id: Id) {
    StatusOf(ss, id).Some? || Talks(ms, id)
  }

  ghost function Talkers(log: Log, ms: seq<Message>): set<Id> {
    set id | id in log && Talks(ms, id)
  }

  /** Sessions with messages whose sequence holds as many results as tool calls. */
  ghost function Balanced(log: Log, ms: seq<Message>): set<Id> {
    set id | id in log && Talks(ms, id) && Count(log[id], ToolCall) == Count(log[id], ToolResult)
  }

  /** The counters and the sequences they were counted beside agree: every
      occurrence is counted, executions add exactly their own, and the tool pairs
      are judged on what the sequences hold. */
  method BuildEventSignatures(ss: seq<Session>, ms: seq<Message>, es: seq<Execution>)
    returns (log: Log, c: Counter, balanced: nat, unbalanced: nat)
    requires UniqueIds(ss)
    ensures forall id :: id in log <==> IsKnown(ss, ms, id)
    ensures forall id :: id in log ==> log[id] == Sequence(ss, ms, id)
    ensures forall v :: Of(c, v) == |Places(log, v)| + Count(AllExecutionEvents(es), v)
    ensures balanced == |Balanced(log, ms)| && balanced + unbalanced == |Talkers(log, ms)|
  {
    var terminal, begun, counted, heard, tools;
    begun, terminal, counted := CountSessions(ss);
    heard, counted, tools := CountMessages(ms, begun, terminal, counted);
    balanced, unbalanced := CountPairs(tools);
    c := CountExecutions(es, counted);
    forall id | id in terminal ensures id in heard { assert EndingIn(terminal, id) == Ending(ss, id); }
    log := AppendEndings(heard, terminal, counted);
    NoneAwaiting(counted, log);
    forall id ensures Get(log, id) == Sequence(ss, ms, id) {
      assert Caught(ms, begun, heard, tools, id);
      SequenceIs(ss, ms, begun, heard, log, terminal, tools, id);
    }
    forall id | id in log ensures log[id] == Sequence(ss, ms, id) { assert log[id] == Get(log, id); }
    forall id ensures TallyIn(tools, id) == TallyOf(Said(ms, id)) { assert Caught(ms, begun, heard, tools, id); }
    PairsMatchSequences(ss, ms, tools, log);
  }

  lemma NoneAwaiting(c: Counter, log: Log)
    requires Tallied(c, log, map[])
    ensures forall v :: Of(c, v) == |Places(log, v)|
  {
    assert forall v :: Awaiting(map[], v) == {};
  }

  lemma PairsMatchSequences(ss: seq<Session>, ms: seq<Message>, tools: map<Id, Tally>, log: Log)
    requires forall id :: id in log <==> IsKnown(ss, ms, id)
    requires forall id :: id in log ==> log[id] == Sequence(ss, ms, id)
    requires forall id :: id in tools <==> Talks(ms, id)
    requires forall id :: TallyIn(tools, id) == TallyOf(Said(ms, id))
    ensures tools.Keys == Talkers(log, ms) && Even(tools) == Balanced(log, ms)
  {
    forall id ensures id in tools <==> id in Talkers(log, ms) {
      assert id in log <==> IsKnown(ss, ms, id);
    }
    forall id ensures id in Even(tools) <==> id in Balanced(log, ms) {
      assert id in log <==> IsKnown(ss, ms, id);
      if id in tools {
        assert tools[id] == TallyIn(tools, id);
        EndsAddNoTools(ss, ms, id);
      }
    }
  }

  lemma EdgesHoldNoTools(ss: seq<Session>, id: Id)
    ensures TallyOf(Opening(ss, id)) == Tally(0, 0) && TallyOf(Ending(ss, id)) == Tally(0, 0)
  {
    NoneCounted(Opening(ss, id), ToolCall);
    NoneCounted(Opening(ss, id), ToolResult);
    NoneCounted(Ending(ss, id), ToolCall);
    NoneCounted(Ending(ss, id), ToolResult);
  }

  lemma EndsAddNoTools(ss: seq<Session>, ms: seq<Message>, id: Id)
    ensures TallyOf(Sequence(ss, ms, id)) == TallyOf(Said(ms, id))
  {
    EdgesHoldNoTools(ss, id);
    TallyAdds(Opening(ss, id), Said(ms, id) + Ending(ss, id));
    TallyAdds(Said(ms, id), Ending(ss, id));
  }

  lemma SequenceIs(
    ss: seq<Session>, ms: seq<Message>, begun: Log, heard: Log, log: Log,
    terminal: map<Id, Variant>, tools: map<Id, Tally>, id: Id)
    requires Get(begun, id) == Opening(ss, id) && EndingIn(terminal, id) == Ending(ss, id)
    requires Caught(ms, begun, heard, tools, id)
    requires Get(log, id) == Get(heard, id) + EndingIn(terminal, id)
    ensures Get(log, id) == Sequence(ss, ms, id)
  {}

  predicate IsTerminal(v: Variant) {
    v == AgentCompleted || v == AgentStopped || v == ErrorEvent
  }

  /** Neither starts nor ends a session. */
  predicate Within(v: Variant) {
    !IsTerminal(v) && v != AgentStarted
  }

  lemma {:induction false} TimesWithin(e: Variant, n: nat)
    requires Within(e)
    ensures forall k :: 0 <= k < |Times(e, n)| ==> Within(Times(e, n)[k])
  {
    if n > 0 { TimesWithin(e, n - 1); }
  }

  lemma {:induction false} SaidWithin(ms: seq<Message>, id: Id)
    ensures forall k :: 0 <= k < |Said(ms, id)| ==> Within(Said(ms, id)[k])
  {
    if ms != [] {
      var m := ms[|ms| - 1];
      SaidWithin(ms[..|ms| - 1], id);
      TimesWithin(ToolCall, m.calls);
      TimesWithin(ToolResult, Results(m));
    }
  }

  /** A session ends at most once and last, exactly when its status is final; and
      starts at most once and first, exactly when it has a row. */
  lemma EndsOnceAndLast(ss: seq<Session>, ms: seq<Message>, id: Id, k: nat)
    requires k < |Sequence(ss, ms, id)|
    ensures var events := Sequence(ss, ms, id);
      && (IsTerminal(events[k]) <==>
            k == |events| - 1 && StatusOf(ss, id).Some? && TerminalOf(StatusOf(ss, id).value).Some?)
      && (events[k] == AgentStarted <==> k == 0 && StatusOf(ss, id).Some?)
  {
    SaidWithin(ms, id);
    var said := Said(ms, id);
    if |Opening(ss, id)| <= k < |Opening(ss, id)| + |said| {
      assert Sequence(ss, ms, id)[k] == said[k - |Opening(ss, id)|];
    }
  }

  /** Besides the two delegation events and the two endings that executions share,
      every counter is exactly the number of occurrences. */
  lemma {:induction false} ExecutionsCountOnly(es: seq<Execution>, v: Variant)
    requires v != DelegationStarted && v != DelegationCompleted && v != ErrorEvent && v != AgentStopped
    ensures Count(AllExecutionEvents(es), v) == 0
  {
    if es != [] {
      ExecutionsCountOnly(es[..|es| - 1], v);
      NoneCounted(ExecutionEvents(es[|es| - 1]), v);
      CountAdds(AllExecutionEvents(es[..|es| - 1]), ExecutionEvents(es[|es| - 1]), v);
    }
  }

  lemma {:induction false} NoneCountedTo(es: seq<Variant>, n: nat, v: Variant)
    requires n <= |es| && forall k :: 0 <= k < n ==> es[k] != v
    ensures CountTo(es, n, v) == 0
  {
    if n > 0 { NoneCountedTo(es, n - 1, v); }
  }

  lemma NoneCounted(es: seq<Variant>, v: Variant)
    requires forall k :: 0 <= k < |es| ==> es[k] != v
    ensures Count(es, v) == 0
  {
    NoneCountedTo(es, |es|, v);
  }
}
