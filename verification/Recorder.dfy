/** A session's message log turned into a fixture: replies are grouped by execution,
    tool results paired with the calls they answer. */
module Recorder {
  import opened Wrappers
  import opened Sequences

  datatype Exec = Exec(id: string)
  datatype Call = Call(name: string, args: string)
  datatype Role = Assistant | Tool | OtherRole

  /** `exec` is absent when the log has no execution id, or an empty one. */
  datatype Msg = Msg(exec: Option<Exec>, role: Role, content: string, calls: seq<Call>)

  // -------------------------------------------------------------------- replies

  datatype Reply = Reply(content: string, calls: seq<Call>, finish: string)
  datatype Record = Record(exec: Exec, iteration: nat, hash: string, reply: Reply)

  function BuildReply(m: Msg): Reply {
    Reply(if m.content == "[tool calls]" then "" else m.content, m.calls,
          if m.calls != [] then "tool_calls" else "stop")
  }

  /** A reply keeps the calls, and the text unless that only stands for the calls; it is
      finished for tool calls exactly when there are some. */
  lemma RepliesSay(m: Msg)
    ensures BuildReply(m).calls == m.calls
    ensures m.content == "[tool calls]" ==> BuildReply(m).content == ""
    ensures m.content != "[tool calls]" ==> BuildReply(m).content == m.content
    ensures |m.calls| > 0 ==> BuildReply(m).finish == "tool_calls"
    ensures |m.calls| == 0 ==> BuildReply(m).finish == "stop"
  {}

  /** One reply of the log, in the place where it was said. */
  datatype Said = Said(exec: Exec, reply: Reply)

  predicate Speaks(m: Msg) {
    m.role.Assistant? && m.exec.Some?
  }

  /** The replies of the log in their original order. */
  function Replies(ms: seq<Msg>): seq<Said> {
    if ms == [] then []
    else
      var m := ms[|ms| - 1];
      Replies(ms[..|ms| - 1]) + if Speaks(m) then [Said(m.exec.value, BuildReply(m))] else []
  }

  /** The replies of one execution. */
  function Own(rs: seq<Said>, e: Exec): seq<Said> {
    if rs == [] then [] else Own(rs[..|rs| - 1], e) + if rs[|rs| - 1].exec == e then [rs[|rs| - 1]] else []
  }

  /** Groups in the order in which their executions first spoke. */
  datatype Group = Group(exec: Exec, replies: seq<Said>)

  function AddTo(gs: seq<Group>, r: Said): seq<Group> {
    if gs == [] then [Group(r.exec, [r])]
    else if gs[0].exec == r.exec then [gs[0].(replies := gs[0].replies + [r])] + gs[1..]
    else [gs[0]] + AddTo(gs[1..], r)
  }

  function Grouped(rs: seq<Said>): seq<Group> {
    if rs == [] then [] else AddTo(Grouped(rs[..|rs| - 1]), rs[|rs| - 1])
  }

  function Flat(gs: seq<Group>): seq<Said> {
    if gs == [] then [] else gs[0].replies + Flat(gs[1..])
  }

  ghost predicate Tidy(gs: seq<Group>) {
    && (forall i, j :: 0 <= i < j < |gs| ==> gs[i].exec != gs[j].exec)
    && (forall i :: 0 <= i < |gs| ==> Pure(gs[i].replies, gs[i].exec))
  }

  ghost predicate Pure(rs: seq<Said>, e: Exec) {
    rs != [] && forall k :: 0 <= k < |rs| ==> rs[k].exec == e
  }

  ghost predicate Absent(rs: seq<Said>, e: Exec) {
    forall k :: 0 <= k < |rs| ==> rs[k].exec != e
  }

  lemma {:induction false} AddKeepsOthers(gs: seq<Group>, r: Said)
    ensures |gs| <= |AddTo(gs, r)|
    ensures forall i :: 0 <= i < |AddTo(gs, r)| ==>
      AddTo(gs, r)[i].exec == r.exec || (i < |gs| && AddTo(gs, r)[i] == gs[i])
  {
    if gs != [] && gs[0].exec != r.exec { AddKeepsOthers(gs[1..], r); }
  }

  lemma TidyFrom(g: Group, gs: seq<Group>)
    requires Tidy(gs) && Pure(g.replies, g.exec) && forall i :: 0 <= i < |gs| ==> gs[i].exec != g.exec
    ensures Tidy([g] + gs)
  {}

  lemma {:induction false} AddKeepsTidy(gs: seq<Group>, r: Said)
    requires Tidy(gs)
    ensures Tidy(AddTo(gs, r))
  {
    if gs == [] {
      TidyFrom(Group(r.exec, [r]), []);
    } else if gs[0].exec == r.exec {
      TidyFrom(gs[0].(replies := gs[0].replies + [r]), gs[1..]);
    } else {
      AddKeepsTidy(gs[1..], r);
      AddKeepsOthers(gs[1..], r);
      TidyFrom(gs[0], AddTo(gs[1..], r));
    }
  }

  lemma {:induction false} OwnInParts(a: seq<Said>, b: seq<Said>, e: Exec)
    ensures Own(a + b, e) == Own(a, e) + Own(b, e)
  {
    if b == [] {
      assert a + b == a;
    } else {
      OwnInParts(a, b[..|b| - 1], e);
      assert (a + b)[..|a + b| - 1] == a + b[..|b| - 1];
    }
  }

  lemma {:induction false} OwnOfAbsent(rs: seq<Said>, e: Exec)
    requires Absent(rs, e)
    ensures Own(rs, e) == []
  {
    if rs != [] { OwnOfAbsent(rs[..|rs| - 1], e); }
  }

  lemma {:induction false} FlatAbsent(gs: seq<Group>, e: Exec)
    requires Tidy(gs) && forall i :: 0 <= i < |gs| ==> gs[i].exec != e
    ensures Absent(Flat(gs), e)
  {
    if gs != [] { FlatAbsent(gs[1..], e); }
  }

  lemma AddHere(first: seq<Said>, r: Said, rest: seq<Said>, e: Exec)
    requires Absent(rest, r.exec)
    ensures Own(first + [r] + rest, e) == Own(first + rest, e) + Own([r], e)
  {
    OwnInParts(first + [r], rest, e);
    OwnInParts(first, [r], e);
    OwnInParts(first, rest, e);
    if r.exec == e {
      OwnOfAbsent(rest, e);
    } else {
      OwnOfAbsent([r], e);
    }
  }

  lemma {:induction false} AddAddsOne(gs: seq<Group>, r: Said, e: Exec)
    requires Tidy(gs)
    ensures Own(Flat(AddTo(gs, r)), e) == Own(Flat(gs), e) + Own([r], e)
  {
    if gs == [] {
      FlatOne(Group(r.exec, [r]));
      assert Own([], e) + Own([r], e) == Own([r], e);
    } else {
      var first, rest := gs[0].replies, gs[1..];
      if gs[0].exec == r.exec {
        assert AddTo(gs, r)[1..] == rest && Flat(AddTo(gs, r)) == first + [r] + Flat(rest);
        FlatAbsent(rest, r.exec);
        AddHere(first, r, Flat(rest), e);
      } else {
        AddAddsOne(rest, r, e);
        assert AddTo(gs, r)[1..] == AddTo(rest, r) && Flat(AddTo(gs, r)) == first + Flat(AddTo(rest, r));
        OwnInParts(first, Flat(rest), e);
        OwnInParts(first, Flat(AddTo(rest, r)), e);
      }
    }
  }

  lemma {:induction false} GroupedIsTidy(rs: seq<Said>)
    ensures Tidy(Grouped(rs))
  {
    if rs != [] {
      GroupedIsTidy(rs[..|rs| - 1]);
      AddKeepsTidy(Grouped(rs[..|rs| - 1]), rs[|rs| - 1]);
    }
  }

  /** Grouping keeps every execution's replies, in the order it said them. */
  lemma {:induction false} GroupingKeepsEachOrder(rs: seq<Said>, e: Exec)
    ensures Own(Flat(Grouped(rs)), e) == Own(rs, e)
  {
    if rs != [] {
      var most, r := rs[..|rs| - 1], rs[|rs| - 1];
      GroupingKeepsEachOrder(most, e);
      GroupedIsTidy(most);
      AddAddsOne(Grouped(most), r, e);
      OwnInParts(most, [r], e);
      assert most + [r] == rs;
    }
  }

  // ------------------------------------------------- when grouping keeps order

  /** No execution speaks again after another one has spoken. */
  ghost predicate Contiguous(rs: seq<Said>) {
    forall i, j, k :: 0 <= i < j < k < |rs| ==> !Returns(rs, i, j, k)
  }

  /** The execution at `i` speaks again at `k`, after another one at `j`. */
  predicate Returns(rs: seq<Said>, i: nat, j: nat, k: nat)
    requires i < j < k < |rs|
  {
    rs[i].exec == rs[k].exec && rs[j].exec != rs[i].exec
  }

  lemma FlatOne(g: Group)
    ensures Flat([g]) == g.replies
  {
    assert [g][1..] == [];
  }

  lemma {:induction false} FlatInParts(a: seq<Group>, b: seq<Group>)
    ensures Flat(a + b) == Flat(a) + Flat(b)
  {
    if a == [] {
      assert a + b == b;
    } else {
      FlatInParts(a[1..], b);
      assert (a + b)[1..] == a[1..] + b;
      Regroup(a[0].replies, Flat(a[1..]), Flat(b));
    }
  }

  lemma {:induction false} FlatIsContiguous(gs: seq<Group>)
    requires Tidy(gs)
    ensures Contiguous(Flat(gs))
  {
    if gs != [] {
      FlatIsContiguous(gs[1..]);
      FlatAbsent(gs[1..], gs[0].exec);
      JoinContiguous(gs[0].replies, gs[0].exec, Flat(gs[1..]));
    }
  }

  lemma JoinContiguous(a: seq<Said>, e: Exec, b: seq<Said>)
    requires Pure(a, e) && Absent(b, e) && Contiguous(b)
    ensures Contiguous(a + b)
  {
    var s := a + b;
    forall i: nat, j: nat, k: nat | i < j < k < |s| ensures !Returns(s, i, j, k) {
      if i >= |a| { assert !Returns(b, i - |a|, j - |a|, k - |a|); }
    }
  }

  lemma {:induction false} AddWhereNew(gs: seq<Group>, r: Said)
    requires forall i :: 0 <= i < |gs| ==> gs[i].exec != r.exec
    ensures AddTo(gs, r) == gs + [Group(r.exec, [r])]
  {
    if gs != [] { AddWhereNew(gs[1..], r); }
  }

  lemma {:induction false} AddAtLast(gs: seq<Group>, r: Said)
    requires Tidy(gs) && gs != [] && gs[|gs| - 1].exec == r.exec
    ensures var last := gs[|gs| - 1];
      AddTo(gs, r) == gs[..|gs| - 1] + [last.(replies := last.replies + [r])]
  {
    if |gs| > 1 {
      AddAtLast(gs[1..], r);
      assert gs[1..][..|gs| - 2] == gs[1..|gs| - 1];
    }
  }

  lemma {:induction false} FlatMentions(gs: seq<Group>, i: nat)
    requires Tidy(gs) && i < |gs|
    ensures exists k :: 0 <= k < |Flat(gs)| && Flat(gs)[k].exec == gs[i].exec
  {
    if i == 0 {
      assert Flat(gs)[0] == gs[0].replies[0];
    } else {
      FlatMentions(gs[1..], i - 1);
      var k :| 0 <= k < |Flat(gs[1..])| && Flat(gs[1..])[k].exec == gs[i].exec;
      assert Flat(gs)[|gs[0].replies| + k] == Flat(gs[1..])[k];
    }
  }

  lemma GrowLast(gs: seq<Group>, r: Said)
    requires Tidy(gs) && gs != [] && gs[|gs| - 1].exec == r.exec
    ensures Flat(AddTo(gs, r)) == Flat(gs) + [r]
    ensures AddTo(gs, r) != [] && AddTo(gs, r)[|AddTo(gs, r)| - 1].exec == r.exec
  {
    AddAtLast(gs, r);
    var front, last := gs[..|gs| - 1], gs[|gs| - 1];
    assert gs == front + [last];
    FlatInParts(front, [last]);
    FlatInParts(front, [last.(replies := last.replies + [r])]);
    FlatOne(last);
    FlatOne(last.(replies := last.replies + [r]));
    assert Flat(front) + (last.replies + [r]) == Flat(front) + last.replies + [r];
  }

  lemma GrowNew(gs: seq<Group>, r: Said)
    requires forall i :: 0 <= i < |gs| ==> gs[i].exec != r.exec
    ensures Flat(AddTo(gs, r)) == Flat(gs) + [r]
    ensures AddTo(gs, r) != [] && AddTo(gs, r)[|AddTo(gs, r)| - 1].exec == r.exec
  {
    AddWhereNew(gs, r);
    FlatInParts(gs, [Group(r.exec, [r])]);
    FlatOne(Group(r.exec, [r]));
  }

  lemma NewSpeaker(rs: seq<Said>, gs: seq<Group>, r: Said, i: nat)
    requires Contiguous(rs + [r]) && Tidy(gs) && Flat(gs) == rs && i < |gs|
    requires rs != [] ==> rs[|rs| - 1].exec != r.exec
    ensures gs[i].exec != r.exec
  {
    FlatMentions(gs, i);
    var k :| 0 <= k < |rs| && rs[k].exec == gs[i].exec;
    var all := rs + [r];
    assert k < |rs| - 1 ==> !Returns(all, k, |rs| - 1, |rs|);
  }

  lemma ContiguousPrefix(rs: seq<Said>)
    requires Contiguous(rs) && rs != []
    ensures Contiguous(rs[..|rs| - 1])
  {
    var most := rs[..|rs| - 1];
    forall i: nat, j: nat, k: nat | i < j < k < |most| ensures !Returns(most, i, j, k) {
      assert !Returns(rs, i, j, k);
    }
  }

  lemma OrderStep(rs: seq<Said>, gs: seq<Group>)
    requires rs != [] && Contiguous(rs) && Tidy(gs) && Flat(gs) == rs[..|rs| - 1]
    requires |rs| > 1 ==> gs != [] && gs[|gs| - 1].exec == rs[|rs| - 2].exec
    ensures var r := rs[|rs| - 1];
      && Flat(AddTo(gs, r)) == rs
      && AddTo(gs, r) != [] && AddTo(gs, r)[|AddTo(gs, r)| - 1].exec == r.exec
  {
    var most, r := rs[..|rs| - 1], rs[|rs| - 1];
    assert most + [r] == rs;
    if most != [] && most[|most| - 1].exec == r.exec {
      GrowLast(gs, r);
    } else {
      forall i: nat | i < |gs| ensures gs[i].exec != r.exec { NewSpeaker(most, gs, r, i); }
      GrowNew(gs, r);
    }
  }

  lemma {:induction false} ContiguousKeepsOrder(rs: seq<Said>)
    requires Contiguous(rs)
    ensures Flat(Grouped(rs)) == rs
    ensures rs != [] ==> Grouped(rs) != [] && Grouped(rs)[|Grouped(rs)| - 1].exec == rs[|rs| - 1].exec
  {
    if rs != [] {
      ContiguousPrefix(rs);
      ContiguousKeepsOrder(rs[..|rs| - 1]);
      GroupedIsTidy(rs[..|rs| - 1]);
      OrderStep(rs, Grouped(rs[..|rs| - 1]));
    }
  }

  /** The fixture is in the original order exactly when no execution speaks again
      after another one has spoken. */
  lemma OriginalOrderExactly(rs: seq<Said>)
    ensures Flat(Grouped(rs)) == rs <==> Contiguous(rs)
  {
    if Contiguous(rs) {
      ContiguousKeepsOrder(rs);
    } else {
      GroupedIsTidy(rs);
      FlatIsContiguous(Grouped(rs));
    }
  }

  /** A root that speaks before and after its delegate: grouping swaps the last two. */
  lemma DelegationBreaksOrder(root: Exec, child: Exec, a: Reply, b: Reply, c: Reply)
    requires root != child
    ensures var rs := [Said(root, a), Said(child, b), Said(root, c)];
      !Contiguous(rs) && Flat(Grouped(rs)) != rs
  {
    var rs := [Said(root, a), Said(child, b), Said(root, c)];
    assert Returns(rs, 0, 1, 2);
    OriginalOrderExactly(rs);
  }

  // ---------------------------------------------------------------- the methods

  method GroupAssistantMessages(ms: seq<Msg>) returns (gs: seq<Group>)
    ensures gs == Grouped(Replies(ms))
  {
    gs := [];
    for i := 0 to |ms|
      invariant gs == Grouped(Replies(ms[..i]))
    {
      assert ms[..i + 1][..i] == ms[..i];
      assert Replies(ms[..i]) + [] == Replies(ms[..i]);
      if !ms[i].role.Assistant? || ms[i].exec.None? { continue; }
      var r := Said(ms[i].exec.value, BuildReply(ms[i]));
      assert (Replies(ms[..i]) + [r])[..|Replies(ms[..i])|] == Replies(ms[..i]);
      gs := AddTo(gs, r);
    }
    assert ms[..|ms|] == ms;
  }

  function Numbered(e: Exec, rs: seq<Said>): seq<Record> {
    seq(|rs|, i requires 0 <= i < |rs| => Record(e, i, "", rs[i].reply))
  }

  function AllNumbered(gs: seq<Group>): seq<Record> {
    if gs == [] then [] else AllNumbered(gs[..|gs| - 1]) + Numbered(gs[|gs| - 1].exec, gs[|gs| - 1].replies)
  }

  method ExtractLlmResponses(ms: seq<Msg>) returns (records: seq<Record>)
    ensures records == AllNumbered(Grouped(Replies(ms)))
  {
    var gs := GroupAssistantMessages(ms);
    records := [];
    for i := 0 to |gs|
      invariant records == AllNumbered(gs[..i])
    {
      assert gs[..i + 1][..i] == gs[..i];
      ghost var before := records;
      var rs := gs[i].replies;
      for k := 0 to |rs|
        invariant records == before + Numbered(gs[i].exec, rs)[..k]
      {
        records := records + [Record(gs[i].exec, k, "", rs[k].reply)];
      }
    }
    assert gs[..|gs|] == gs;
  }

  function SaidBy(r: Record): Said {
    Said(r.exec, r.reply)
  }

  function Unnumbered(records: seq<Record>): seq<Said> {
    seq(|records|, i requires 0 <= i < |records| => SaidBy(records[i]))
  }

  lemma {:induction false} NumberingKeepsReplies(gs: seq<Group>)
    requires Tidy(gs)
    ensures Unnumbered(AllNumbered(gs)) == Flat(gs)
  {
    if gs != [] {
      var front, last := gs[..|gs| - 1], gs[|gs| - 1];
      NumberingKeepsReplies(front);
      assert gs == front + [last];
      FlatInParts(front, [last]);
      FlatOne(last);
      assert Unnumbered(Numbered(last.exec, last.replies)) == last.replies;
    }
  }

  ghost function Earlier(rs: seq<Record>, p: nat, e: Exec): set<nat> {
    set q: nat | q < p && q < |rs| && rs[q].exec == e
  }

  /** No group but the last speaks for its execution. */
  lemma {:induction false} ElsewhereAbsent(gs: seq<Group>, e: Exec)
    requires forall i :: 0 <= i < |gs| ==> gs[i].exec != e
    ensures forall p :: 0 <= p < |AllNumbered(gs)| ==> AllNumbered(gs)[p].exec != e
  {
    if gs != [] { ElsewhereAbsent(gs[..|gs| - 1], e); }
  }

  lemma EarlierInGroup(front: seq<Record>, e: Exec, rs: seq<Said>, i: nat)
    requires i < |rs| && forall p :: 0 <= p < |front| ==> front[p].exec != e
    ensures |Earlier(front + Numbered(e, rs), |front| + i, e)| == i
    decreases i
  {
    var all, n := front + Numbered(e, rs), |front| + i;
    if i == 0 {
      assert Earlier(all, n, e) == {};
    } else {
      EarlierInGroup(front, e, rs, i - 1);
      assert all[n - 1] == Numbered(e, rs)[i - 1];
      assert Earlier(all, n, e) == Earlier(all, n - 1, e) + {n - 1};
    }
  }

  lemma EarlierInPrefix(front: seq<Record>, more: seq<Record>, p: nat, e: Exec)
    requires p < |front|
    ensures Earlier(front + more, p, e) == Earlier(front, p, e)
  {}

  /** A record's number is that of the earlier records of its execution; it carries no
      hash. */
  lemma {:induction false} NumbersSay(gs: seq<Group>, p: nat)
    requires Tidy(gs) && p < |AllNumbered(gs)|
    ensures var rs := AllNumbered(gs);
      rs[p].iteration == |Earlier(rs, p, rs[p].exec)| && rs[p].hash == ""
  {
    var front, last := gs[..|gs| - 1], gs[|gs| - 1];
    var before, more := AllNumbered(front), Numbered(last.exec, last.replies);
    if p < |before| {
      NumbersSay(front, p);
      EarlierInPrefix(before, more, p, before[p].exec);
    } else {
      ElsewhereAbsent(front, last.exec);
      EarlierInGroup(before, last.exec, last.replies, p - |before|);
      assert AllNumbered(gs)[p] == more[p - |before|];
    }
  }

  /** The recorded replies are those of the log in their original order, exactly
      when no execution speaks again after another one has spoken. */
  lemma RecordedInOrderExactly(ms: seq<Msg>)
    ensures Unnumbered(AllNumbered(Grouped(Replies(ms)))) == Replies(ms) <==> Contiguous(Replies(ms))
  {
    GroupedIsTidy(Replies(ms));
    NumberingKeepsReplies(Grouped(Replies(ms)));
    OriginalOrderExactly(Replies(ms));
  }

  // ------------------------------------------------------------- tool results

  datatype ToolResult = ToolResult(exec: Exec, index: nat, call: Call, result: string)

  /** What one execution's messages amount to: the calls made so far, and a result
      for each of the first ones that was answered. */
  datatype Solo = Solo(calls: seq<Call>, results: seq<ToolResult>)

  function Hear(s: Solo, e: Exec, m: Msg): Solo {
    if m.exec != Some(e) then s
    else if m.role.Assistant? then s.(calls := s.calls + m.calls)
    else if m.role.Tool? && |s.results| < |s.calls|
    then s.(results := s.results + [ToolResult(e, |s.results|, s.calls[|s.results|], m.content)])
    else s
  }

  function SoloOf(ms: seq<Msg>, e: Exec): Solo {
    if ms == [] then Solo([], []) else Hear(SoloOf(ms[..|ms| - 1], e), e, ms[|ms| - 1])
  }

  function OwnResults(rs: seq<ToolResult>, e: Exec): seq<ToolResult> {
    if rs == [] then [] else OwnResults(rs[..|rs| - 1], e) + if rs[|rs| - 1].exec == e then [rs[|rs| - 1]] else []
  }

  function OwnMessages(ms: seq<Msg>, e: Exec): seq<Msg> {
    if ms == [] then []
    else OwnMessages(ms[..|ms| - 1], e) + if ms[|ms| - 1].exec == Some(e) then [ms[|ms| - 1]] else []
  }

  function Queue(pending: map<Exec, seq<Call>>, e: Exec): seq<Call> {
    if e in pending then pending[e] else []
  }

  function CursorAt(cursors: map<Exec, nat>, e: Exec): nat {
    if e in cursors then cursors[e] else 0
  }

  /** The queue of an execution holds its calls not yet answered. */
  ghost predicate Tracks(
    s: Solo, e: Exec, pending: map<Exec, seq<Call>>, cursors: map<Exec, nat>, records: seq<ToolResult>)
  {
    && |s.results| <= |s.calls|
    && Queue(pending, e) == s.calls[|s.results|..]
    && CursorAt(cursors, e) == |s.results|
    && OwnResults(records, e) == s.results
  }

  lemma TracksCalls(
    s: Solo, f: Exec, pending: map<Exec, seq<Call>>, cursors: map<Exec, nat>, records: seq<ToolResult>, e: Exec, m: Msg)
    requires Tracks(s, f, pending, cursors, records) && m.exec == Some(e) && m.role.Assistant?
    ensures Tracks(Hear(s, f, m), f, pending[e := Queue(pending, e) + m.calls], cursors, records)
    ensures m.calls == [] ==> Tracks(Hear(s, f, m), f, pending, cursors, records)
  {
    if f == e {
      assert (s.calls + m.calls)[|s.results|..] == s.calls[|s.results|..] + m.calls;
    }
  }

  lemma TracksElsewhere(
    s: Solo, f: Exec, pending: map<Exec, seq<Call>>, cursors: map<Exec, nat>, records: seq<ToolResult>,
    queue: seq<Call>, n: nat, r: ToolResult)
    requires Tracks(s, f, pending, cursors, records) && f != r.exec
    ensures Tracks(s, f, pending[r.exec := queue], cursors[r.exec := n], records + [r])
  {
    OwnOneMore(records, r, f);
  }

  lemma TracksHere(
    s: Solo, pending: map<Exec, seq<Call>>, cursors: map<Exec, nat>, records: seq<ToolResult>, e: Exec, m: Msg)
    requires Tracks(s, e, pending, cursors, records) && m.exec == Some(e) && m.role.Tool? && |s.results| < |s.calls|
    ensures var n := |s.results|;
      && Queue(pending, e) != [] && Queue(pending, e)[0] == s.calls[n] && CursorAt(cursors, e) == n
      && Tracks(Hear(s, e, m), e, pending[e := Queue(pending, e)[1..]], cursors[e := n + 1],
                records + [ToolResult(e, n, s.calls[n], m.content)])
  {
    OwnOneMore(records, ToolResult(e, |s.results|, s.calls[|s.results|], m.content), e);
    assert s.calls[|s.results|..][0] == s.calls[|s.results|];
    assert s.calls[|s.results|..][1..] == s.calls[|s.results| + 1..];
  }

  lemma TracksAnswer(
    s: Solo, f: Exec, pending: map<Exec, seq<Call>>, cursors: map<Exec, nat>, records: seq<ToolResult>, e: Exec, m: Msg)
    requires Tracks(s, f, pending, cursors, records) && m.exec == Some(e) && m.role.Tool? && Queue(pending, e) != []
    ensures Tracks(Hear(s, f, m), f, pending[e := Queue(pending, e)[1..]], cursors[e := CursorAt(cursors, e) + 1],
                   records + [ToolResult(e, CursorAt(cursors, e), Queue(pending, e)[0], m.content)])
  {
    if f == e {
      TracksHere(s, pending, cursors, records, e, m);
    } else {
      var r := ToolResult(e, CursorAt(cursors, e), Queue(pending, e)[0], m.content);
      TracksElsewhere(s, f, pending, cursors, records, Queue(pending, e)[1..], CursorAt(cursors, e) + 1, r);
    }
  }

  lemma OwnOneMore(records: seq<ToolResult>, r: ToolResult, f: Exec)
    ensures OwnResults(records + [r], f) == if r.exec == f then OwnResults(records, f) + [r] else OwnResults(records, f)
  {
    assert (records + [r])[..|records|] == records;
    assert OwnResults(records, f) + [] == OwnResults(records, f);
  }

  /** The result that one more message adds, if it adds one. */
  function Answered(ms: seq<Msg>, m: Msg): seq<ToolResult> {
    if m.exec.None? || !m.role.Tool? then []
    else
      var e := m.exec.value;
      var s := SoloOf(ms, e);
      if |s.results| < |s.calls| then [ToolResult(e, |s.results|, s.calls[|s.results|], m.content)] else []
  }

  /** A tool message of an execution with a call still unanswered brings the answer to
      the first such call: the message's own text. */
  lemma AnswersSay(ms: seq<Msg>, m: Msg)
    ensures Answered(ms, m) != [] <==>
      m.exec.Some? && m.role == Tool && |SoloOf(ms, m.exec.value).results| < |SoloOf(ms, m.exec.value).calls|
    ensures Answered(ms, m) != [] ==>
      var s, r := SoloOf(ms, m.exec.value), Answered(ms, m)[0];
      && Answered(ms, m) == [r] && r.result == m.content && r.exec == m.exec.value
      && r.index == |s.results| && r.call == s.calls[|s.results|]
  {}

  /** All results in the order of the tool messages that brought them. */
  function AllResults(ms: seq<Msg>): seq<ToolResult> {
    if ms == [] then [] else AllResults(ms[..|ms| - 1]) + Answered(ms[..|ms| - 1], ms[|ms| - 1])
  }

  method ExtractToolResults(ms: seq<Msg>) returns (records: seq<ToolResult>)
    ensures records == AllResults(ms)
    ensures forall e :: OwnResults(records, e) == SoloOf(ms, e).results
  {
    records := [];
    var cursors: map<Exec, nat> := map[];
    var pending: map<Exec, seq<Call>> := map[];
    for i := 0 to |ms|
      invariant records == AllResults(ms[..i])
      invariant forall e :: Tracks(SoloOf(ms[..i], e), e, pending, cursors, records)
    {
      var m := ms[i];
      ghost var next := ms[..i + 1];
      assert next[..i] == ms[..i];
      assert AllResults(next) == records + Answered(ms[..i], m);
      if m.exec.None? { continue; }
      var e := m.exec.value;
      assert Tracks(SoloOf(ms[..i], e), e, pending, cursors, records);
      if m.role.Assistant? {
        forall f ensures Tracks(SoloOf(next, f), f, pending[e := Queue(pending, e) + m.calls], cursors, records)
          ensures m.calls == [] ==> Tracks(SoloOf(next, f), f, pending, cursors, records)
        {
          TracksCalls(SoloOf(ms[..i], f), f, pending, cursors, records, e, m);
        }
        if m.calls != [] { pending := pending[e := Queue(pending, e) + m.calls]; }
        continue;
      }
      if !m.role.Tool? { continue; }
      var queue := Queue(pending, e);
      if queue == [] { continue; }
      var index := CursorAt(cursors, e);
      assert Answered(ms[..i], m) == [ToolResult(e, index, queue[0], m.content)];
      forall f ensures Tracks(SoloOf(next, f), f, pending[e := queue[1..]], cursors[e := index + 1],
                              records + [ToolResult(e, index, queue[0], m.content)])
      {
        TracksAnswer(SoloOf(ms[..i], f), f, pending, cursors, records, e, m);
      }
      pending := pending[e := queue[1..]];
      records := records + [ToolResult(e, index, queue[0], m.content)];
      cursors := cursors[e := index + 1];
    }
    assert ms[..|ms|] == ms;
  }

  /** Interleaving does not matter: an execution's results are those of its own
      messages alone. */
  lemma {:induction false} InterleavingDoesNotMatter(ms: seq<Msg>, e: Exec)
    ensures SoloOf(ms, e) == SoloOf(OwnMessages(ms, e), e)
  {
    if ms != [] {
      var own, m := OwnMessages(ms[..|ms| - 1], e), ms[|ms| - 1];
      InterleavingDoesNotMatter(ms[..|ms| - 1], e);
      assert (own + [m])[..|own|] == own;
      assert own + [] == own;
    }
  }

  /** Results are numbered without gaps, and the j-th answers the j-th call. */
  lemma {:induction false} PairedInOrder(ms: seq<Msg>, e: Exec, j: nat)
    requires j < |SoloOf(ms, e).results|
    ensures var s := SoloOf(ms, e);
      |s.results| <= |s.calls| && s.results[j].index == j && s.results[j].call == s.calls[j] && s.results[j].exec == e
  {
    if ms != [] {
      var s := SoloOf(ms[..|ms| - 1], e);
      if j < |s.results| {
        PairedInOrder(ms[..|ms| - 1], e, j);
      } else {
        assert j == |s.results| < |s.calls|;
      }
    }
  }
}
