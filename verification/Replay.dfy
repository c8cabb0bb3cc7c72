/** Replay of a recorded fixture, by execution or in plain order, strictly or not, with
    everything that could not be served noted as drift. */
module Replay {
  import opened Wrappers
  import opened Recorder

  datatype Reason = Exhausted | UnknownExec | HashMismatch
  /** `hashes` are the recorded and the received one of a mismatch. */
  datatype Drift = Drift(exec: Option<Exec>, iteration: int, reason: Reason, hashes: Option<(string, string)>)

  /** The store: the fixture's records in order, the places of each execution's
      records, and two kinds of cursor. */
  datatype Store = Store(
    ordered: seq<Record>, places: map<Exec, seq<nat>>, cursor: map<Exec, nat>, next: nat,
    drift: seq<Drift>, received: nat, strict: bool)

  function Places(rs: seq<Record>, e: Exec): seq<nat> {
    if rs == [] then [] else Places(rs[..|rs| - 1], e) + if rs[|rs| - 1].exec == e then [|rs| - 1] else []
  }

  function At(places: map<Exec, seq<nat>>, e: Exec): seq<nat> {
    if e in places then places[e] else []
  }

  function Cursor(cursor: map<Exec, nat>, e: Exec): nat {
    if e in cursor then cursor[e] else 0
  }

  // -------------------------------------------------------- the two requests

  datatype Request = Any | For(exec: Exec, hash: string)

  datatype Match = Served(place: nat) | Missed(reason: Reason)

  function Answer(s: Store, q: Request): Match {
    match q
    case Any => if s.next < |s.ordered| then Served(s.next) else Missed(Exhausted)
    case For(e, hash) =>
      var k := Cursor(s.cursor, e);
      if e !in s.places then Missed(UnknownExec)
      else if k >= |s.places[e]| then Missed(Exhausted)
      else if s.strict && HashOf(s.ordered, s.places[e][k]) != "" && HashOf(s.ordered, s.places[e][k]) != hash
      then Missed(HashMismatch)
      else Served(s.places[e][k])
  }

  function HashOf(rs: seq<Record>, place: nat): string {
    if place < |rs| then rs[place].hash else ""
  }

  function DriftOf(s: Store, q: Request): Drift
    requires Answer(s, q).Missed?
  {
    match q
    case Any => Drift(None, s.next, Exhausted, None)
    case For(e, hash) =>
      match Answer(s, q).reason
      case UnknownExec => Drift(Some(e), -1, UnknownExec, None)
      case Exhausted => Drift(Some(e), Cursor(s.cursor, e), Exhausted, None)
      case HashMismatch =>
        var k := Cursor(s.cursor, e);
        Drift(Some(e), k, HashMismatch, Some((HashOf(s.ordered, s.places[e][k]), hash)))
  }

  /** Which request is refused and how that is noted: in plain order when the records are
      used up; by execution when it is unknown, has no more, or a strict store finds
      another hash recorded. */
  lemma RefusalsSay(s: Store, q: Request)
    ensures q == Any ==>
      && (Answer(s, q).Missed? <==> s.next >= |s.ordered|)
      && (Answer(s, q).Missed? ==> DriftOf(s, q) == Drift(None, s.next, Exhausted, None))
    ensures q.For? && q.exec !in s.places ==>
      Answer(s, q).Missed? && DriftOf(s, q) == Drift(Some(q.exec), -1, UnknownExec, None)
    ensures q.For? && q.exec in s.places ==>
      var k := if q.exec in s.cursor then s.cursor[q.exec] else 0;
      if k >= |s.places[q.exec]| then
        Answer(s, q).Missed? && DriftOf(s, q) == Drift(Some(q.exec), k, Exhausted, None)
      else
        var place := s.places[q.exec][k];
        var hash := if place < |s.ordered| then s.ordered[place].hash else "";
        if s.strict && hash !in {"", q.hash} then
          Answer(s, q).Missed? && DriftOf(s, q) == Drift(Some(q.exec), k, HashMismatch, Some((hash, q.hash)))
        else Answer(s, q) == Served(place)
  {}

  /** The records' places are in the fixture. */
  ghost predicate Sound(s: Store) {
    forall e, k :: e in s.places && 0 <= k < |s.places[e]| ==> s.places[e][k] < |s.ordered|
  }

  /** What the caller is told. */
  datatype Outcome = Response(reply: Reply) | Refused(reason: Reason, hashes: Option<(string, string)>)

  ghost function OutcomeOf(s: Store, q: Request): Outcome
    requires Sound(s)
  {
    match Answer(s, q)
    case Served(place) => Response(s.ordered[place].reply)
    case Missed(reason) => Refused(reason, DriftOf(s, q).hashes)
  }

  /** Serving in plain order moves an execution's own cursor too, when it stood on
      the very record served. */
  function CursorAfter(s: Store, q: Request): map<Exec, nat>
    requires Answer(s, q).Served?
  {
    match q
    case Any =>
      var e := s.ordered[s.next].exec;
      var k := Cursor(s.cursor, e);
      if k < |At(s.places, e)| && At(s.places, e)[k] == s.next then s.cursor[e := k + 1] else s.cursor
    case For(e, _) => s.cursor[e := Cursor(s.cursor, e) + 1]
  }

  function Step(s: Store, q: Request): Store {
    if Answer(s, q).Missed? then s.(drift := s.drift + [DriftOf(s, q)], received := s.received + 1)
    else s.(cursor := CursorAfter(s, q), next := if q.Any? then s.next + 1 else s.next, received := s.received + 1)
  }

  class ReplayStore {
    var ordered: seq<Record>
    var places: map<Exec, seq<nat>>
    var cursor: map<Exec, nat>
    var next: nat
    var drift: seq<Drift>
    var received: nat
    const strict: bool

    function Value(): Store
      reads this
    {
      Store(ordered, places, cursor, next, drift, received, strict)
    }

    /** Loads a fixture line by line. */
    constructor (rs: seq<Record>, strict: bool)
      ensures Loaded(Value(), rs) && Sound(Value()) && Value().strict == strict
    {
      this.strict := strict;
      ordered, places, cursor, next, drift, received := [], map[], map[], 0, [], 0;
      new;
      for i := 0 to |rs|
        invariant ordered == rs[..i] && next == 0 && drift == [] && received == 0
        invariant Indexed(places, rs[..i])
      {
        IndexedOneMore(places, rs, i);
        var e := rs[i].exec;
        places := places[e := At(places, e) + [i]];
        ordered := ordered + [rs[i]];
      }
      assert rs[..|rs|] == rs;
      cursor := map e | e in places :: 0;
      LoadedIsSound(Value(), rs);
    }

    method NextAny() returns (r: Outcome)
      requires Sound(Value())
      modifies this
      ensures Value() == Step(old(Value()), Any) && Sound(Value())
      ensures r == OutcomeOf(old(Value()), Any)
    {
      received := received + 1;
      if next >= |ordered| {
        drift := drift + [Drift(None, next, Exhausted, None)];
        return Refused(Exhausted, None);
      }
      r := Response(ordered[next].reply);
      var e := ordered[next].exec;
      var k := Cursor(cursor, e);
      if k < |At(places, e)| && At(places, e)[k] == next { cursor := cursor[e := k + 1]; }
      next := next + 1;
    }

    method NextResponse(e: Exec, hash: string) returns (r: Outcome)
      requires Sound(Value())
      modifies this
      ensures Value() == Step(old(Value()), For(e, hash)) && Sound(Value())
      ensures r == OutcomeOf(old(Value()), For(e, hash))
    {
      received := received + 1;
      if e !in places {
        drift := drift + [Drift(Some(e), -1, UnknownExec, None)];
        return Refused(UnknownExec, None);
      }
      var k := Cursor(cursor, e);
      if k >= |places[e]| {
        drift := drift + [Drift(Some(e), k, Exhausted, None)];
        return Refused(Exhausted, None);
      }
      var place := places[e][k];
      var expected := HashOf(ordered, place);
      if strict && expected != "" && expected != hash {
        drift := drift + [Drift(Some(e), k, HashMismatch, Some((expected, hash)))];
        return Refused(HashMismatch, Some((expected, hash)));
      }
      cursor := cursor[e := k + 1];
      r := Response(ordered[place].reply);
    }
  }

  lemma {:induction false} PlacesInRange(rs: seq<Record>, e: Exec)
    ensures forall k :: 0 <= k < |Places(rs, e)| ==> Places(rs, e)[k] < |rs|
  {
    if rs != [] { PlacesInRange(rs[..|rs| - 1], e); }
  }

  /** Each execution's places, for the executions that have some. */
  ghost predicate Indexed(places: map<Exec, seq<nat>>, rs: seq<Record>) {
    forall e :: At(places, e) == Places(rs, e) && (e in places <==> Places(rs, e) != [])
  }

  lemma IndexedOneMore(places: map<Exec, seq<nat>>, rs: seq<Record>, i: nat)
    requires i < |rs| && Indexed(places, rs[..i])
    ensures Indexed(places[rs[i].exec := At(places, rs[i].exec) + [i]], rs[..i + 1])
  {
    var f, next := rs[i].exec, rs[..i + 1];
    var more := places[f := At(places, f) + [i]];
    forall e ensures At(more, e) == Places(next, e) && (e in more <==> Places(next, e) != []) {
      PlacesOneMore(rs, i, e);
      assert At(places, e) == Places(rs[..i], e);
    }
  }

  ghost predicate Loaded(s: Store, rs: seq<Record>) {
    && s.ordered == rs && s.next == 0 && s.drift == [] && s.received == 0
    && Indexed(s.places, rs)
    && s.cursor.Keys == s.places.Keys && forall e :: e in s.cursor ==> s.cursor[e] == 0
  }

  lemma LoadedIsSound(s: Store, rs: seq<Record>)
    requires Loaded(s, rs)
    ensures Sound(s)
  {
    forall e, k | e in s.places && 0 <= k < |s.places[e]| ensures s.places[e][k] < |s.ordered| {
      assert At(s.places, e) == Places(rs, e);
      PlacesInRange(rs, e);
    }
  }

  // -------------------------------------------------------------------- runs

  function After(s: Store, qs: seq<Request>): Store {
    if qs == [] then s else Step(After(s, qs[..|qs| - 1]), qs[|qs| - 1])
  }

  /** Requests that were answered with a record. */
  function ServedIn(s: Store, qs: seq<Request>): nat {
    if qs == [] then 0
    else ServedIn(s, qs[..|qs| - 1]) + if Answer(After(s, qs[..|qs| - 1]), qs[|qs| - 1]).Served? then 1 else 0
  }

  /** Requests naming `e` that were answered with a record. */
  function ServedFor(s: Store, qs: seq<Request>, e: Exec): nat {
    if qs == [] then 0
    else
      var q := qs[|qs| - 1];
      ServedFor(s, qs[..|qs| - 1], e)
      + if q.For? && q.exec == e && Answer(After(s, qs[..|qs| - 1]), q).Served? then 1 else 0
  }

  /** Every request is either served or noted as drift, and nothing else is. */
  lemma {:induction false} ReceivedIsServedPlusDrift(s: Store, qs: seq<Request>)
    ensures After(s, qs).received == s.received + |qs|
    ensures |qs| == ServedIn(s, qs) + (|After(s, qs).drift| - |s.drift|)
  {
    if qs != [] { ReceivedIsServedPlusDrift(s, qs[..|qs| - 1]); }
  }

  lemma PlacesOneMore(rs: seq<Record>, n: nat, e: Exec)
    requires n < |rs|
    ensures Places(rs[..n + 1], e) == if rs[n].exec == e then Places(rs[..n], e) + [n] else Places(rs[..n], e)
  {
    assert rs[..n + 1][..n] == rs[..n];
    assert Places(rs[..n], e) + [] == Places(rs[..n], e);
  }

  /** The places in a prefix come first. */
  lemma {:induction false} PlacesOfPrefix(rs: seq<Record>, n: nat, e: Exec)
    requires n <= |rs|
    ensures Places(rs[..n], e) <= Places(rs, e)
    decreases |rs| - n
  {
    if n == |rs| {
      assert rs[..n] == rs;
    } else {
      PlacesOfPrefix(rs, n + 1, e);
      PlacesOneMore(rs, n, e);
    }
  }

  function Count(rs: seq<Record>, n: nat, e: Exec): nat
    requires n <= |rs|
  {
    |Places(rs[..n], e)|
  }

  /** What every run keeps: an execution's cursor is at or past its share of the
      consumed prefix, by no more than its own requests were served. */
  ghost predicate Inv(s: Store, rs: seq<Record>, e: Exec, own: nat) {
    && s.ordered == rs && s.next <= |rs|
    && (e in s.places <==> Places(rs, e) != []) && At(s.places, e) == Places(rs, e)
    && (e in s.cursor <==> e in s.places)
    && (e in s.cursor ==> Count(rs, s.next, e) <= s.cursor[e] <= |Places(rs, e)|
                          && s.cursor[e] <= Count(rs, s.next, e) + own)
  }

  lemma InvAny(s: Store, rs: seq<Record>, e: Exec, own: nat)
    requires Inv(s, rs, e, own)
    ensures Inv(Step(s, Any), rs, e, own)
  {
    if s.next < |rs| {
      PlacesOneMore(rs, s.next, e);
      PlacesOfPrefix(rs, s.next + 1, e);
      if rs[s.next].exec == e { InvAnyOwn(s, rs, e, own); } else { InvAnyOther(s, rs, e, own); }
    }
  }

  lemma InvAnyOther(s: Store, rs: seq<Record>, e: Exec, own: nat)
    requires Inv(s, rs, e, own) && s.next < |rs| && rs[s.next].exec != e
    requires Count(rs, s.next + 1, e) == Count(rs, s.next, e)
    ensures Inv(Step(s, Any), rs, e, own)
  {
    var t := Step(s, Any);
    assert t.cursor == CursorAfter(s, Any);
    assert (e in t.cursor <==> e in s.cursor) && (e in s.cursor ==> t.cursor[e] == s.cursor[e]);
  }

  lemma InvAnyOwn(s: Store, rs: seq<Record>, e: Exec, own: nat)
    requires Inv(s, rs, e, own) && s.next < |rs| && rs[s.next].exec == e
    requires Places(rs[..s.next + 1], e) == Places(rs[..s.next], e) + [s.next] <= Places(rs, e)
    ensures Inv(Step(s, Any), rs, e, own)
  {
    var k := Count(rs, s.next, e);
    assert k < |Places(rs, e)| && Places(rs, e)[k] == s.next;
    AnyMovesOwn(s, e, k);
  }

  lemma AnyMovesOwn(s: Store, e: Exec, k: nat)
    requires s.next < |s.ordered| && s.ordered[s.next].exec == e && e in s.places && e in s.cursor
    requires k < |s.places[e]| && s.places[e][k] == s.next && k <= s.cursor[e]
    ensures var t := Step(s, Any);
      && t == s.(cursor := t.cursor, next := s.next + 1, received := s.received + 1) && e in t.cursor
      && k + 1 <= t.cursor[e] <= s.cursor[e] + 1 && (t.cursor[e] == s.cursor[e] || s.cursor[e] < |s.places[e]|)
      && (s.cursor[e] == k ==> t.cursor[e] == k + 1)
  {}

  lemma InvFor(s: Store, rs: seq<Record>, e: Exec, own: nat, q: Request)
    requires Inv(s, rs, e, own) && q.For?
    ensures Inv(Step(s, q), rs, e, own + if q.exec == e && Answer(s, q).Served? then 1 else 0)
  {}

  lemma InvLoaded(s: Store, rs: seq<Record>, e: Exec)
    requires Loaded(s, rs)
    ensures Inv(s, rs, e, 0)
  {
    assert rs[..0] == [];
    assert At(s.places, e) == Places(rs, e);
    assert e in s.cursor.Keys <==> e in s.places.Keys;
  }

  lemma {:induction false} CursorNearPrefix(s: Store, rs: seq<Record>, qs: seq<Request>, e: Exec)
    requires Loaded(s, rs)
    ensures Inv(After(s, qs), rs, e, ServedFor(s, qs, e))
  {
    if qs == [] {
      InvLoaded(s, rs, e);
    } else {
      var most, q := qs[..|qs| - 1], qs[|qs| - 1];
      CursorNearPrefix(s, rs, most, e);
      if q.Any? { InvAny(After(s, most), rs, e, ServedFor(s, most, e)); }
      else { InvFor(After(s, most), rs, e, ServedFor(s, most, e), q); }
    }
  }

  function AnyTimes(n: nat): seq<Request> {
    seq(n, _ => Any)
  }

  lemma {:induction false} PlainRun(s: Store, rs: seq<Record>, n: nat)
    requires Loaded(s, rs)
    ensures After(s, AnyTimes(n)).ordered == rs
    ensures After(s, AnyTimes(n)).next == if n <= |rs| then n else |rs|
    ensures forall e :: ServedFor(s, AnyTimes(n), e) == 0
  {
    if n > 0 {
      PlainRun(s, rs, n - 1);
      assert AnyTimes(n)[..n - 1] == AnyTimes(n - 1);
    }
  }

  /** In plain order the n-th request gets the n-th record, until there are no more;
      and each execution's cursor is its share of what was consumed. */
  lemma PlainOrderServesFixture(s: Store, rs: seq<Record>, n: nat, e: Exec)
    requires Loaded(s, rs)
    ensures Answer(After(s, AnyTimes(n)), Any) == if n < |rs| then Served(n) else Missed(Exhausted)
    ensures e in s.cursor ==>
      && e in After(s, AnyTimes(n)).cursor
      && After(s, AnyTimes(n)).cursor[e] == Count(rs, if n < |rs| then n else |rs|, e)
  {
    PlainRun(s, rs, n);
    CursorNearPrefix(s, rs, AnyTimes(n), e);
    InvLoaded(s, rs, e);
  }

  // ------------------------------------------------------ requests by execution

  function Asked(qs: seq<Request>, e: Exec): nat {
    if qs == [] then 0 else Asked(qs[..|qs| - 1], e) + if qs[|qs| - 1].For? && qs[|qs| - 1].exec == e then 1 else 0
  }

  function Capped(n: nat, max: nat): nat {
    if n <= max then n else max
  }

  /** A request with this hash may have the record, which may carry no hash at all. */
  predicate Fits(strict: bool, recorded: string, received: string) {
    strict ==> recorded == "" || recorded == received
  }

  /** How many of its records an execution was given, told from its own requests
      alone: a fitting request takes the next one. */
  function Taken(strict: bool, rs: seq<Record>, qs: seq<Request>, e: Exec): nat {
    if qs == [] then 0
    else
      var k, q, own := Taken(strict, rs, qs[..|qs| - 1], e), qs[|qs| - 1], Places(rs, e);
      if q.For? && q.exec == e && k < |own| && Fits(strict, HashOf(rs, own[k]), q.hash) then k + 1 else k
  }

  function AnswerAt(strict: bool, rs: seq<Record>, e: Exec, k: nat, hash: string): Match {
    var own := Places(rs, e);
    if own == [] then Missed(UnknownExec)
    else if k >= |own| then Missed(Exhausted)
    else if Fits(strict, HashOf(rs, own[k]), hash) then Served(own[k]) else Missed(HashMismatch)
  }

  ghost predicate Serving(t: Store, s: Store, rs: seq<Record>) {
    && t.ordered == rs && t.places == s.places && t.strict == s.strict
    && Indexed(s.places, rs) && t.cursor.Keys == t.places.Keys
  }

  lemma {:induction false} TakenRun(s: Store, rs: seq<Record>, qs: seq<Request>, e: Exec)
    requires Loaded(s, rs) && forall q :: q in qs ==> q.For?
    ensures Serving(After(s, qs), s, rs)
    ensures Cursor(After(s, qs).cursor, e) == Taken(s.strict, rs, qs, e)
  {
    if qs != [] {
      var most, q := qs[..|qs| - 1], qs[|qs| - 1];
      assert q in qs && forall p :: p in most ==> p in qs;
      TakenRun(s, rs, most, e);
      TakenStep(After(s, most), s, rs, q, e);
    } else {
      assert forall f :: f in s.cursor <==> f in s.cursor.Keys;
    }
  }

  /** One request moves its own execution's cursor, exactly when it is served. */
  lemma TakenStep(t: Store, s: Store, rs: seq<Record>, q: Request, e: Exec)
    requires Serving(t, s, rs) && q.For?
    ensures Serving(Step(t, q), s, rs)
    ensures Answer(t, q) == AnswerAt(s.strict, rs, q.exec, Cursor(t.cursor, q.exec), q.hash)
    ensures Cursor(Step(t, q).cursor, e)
         == Cursor(t.cursor, e) + if q.exec == e && Answer(t, q).Served? then 1 else 0
  {
    assert q.exec in t.cursor.Keys <==> q.exec in t.places.Keys;
    assert At(s.places, q.exec) == Places(rs, q.exec);
  }

  /** However the executions interleave, in either mode, each request gets the record
      its execution has come to; a request that is not served leaves all cursors
      alone and is noted as drift. */
  lemma EachExecutionInOrder(s: Store, rs: seq<Record>, qs: seq<Request>, e: Exec, hash: string)
    requires Loaded(s, rs) && forall q :: q in qs ==> q.For?
    ensures var t, q := After(s, qs), For(e, hash);
      && Answer(t, q) == AnswerAt(s.strict, rs, e, Taken(s.strict, rs, qs, e), hash)
      && (Answer(t, q).Missed? ==> Step(t, q).cursor == t.cursor && Step(t, q).drift == t.drift + [DriftOf(t, q)])
  {
    TakenRun(s, rs, qs, e);
    TakenStep(After(s, qs), s, rs, For(e, hash), e);
  }

  lemma {:induction false} TakenCapped(strict: bool, rs: seq<Record>, qs: seq<Request>, e: Exec)
    ensures Taken(strict, rs, qs, e) <= Capped(Asked(qs, e), |Places(rs, e)|)
    ensures (!strict || forall place :: place in Places(rs, e) ==> HashOf(rs, place) == "") ==>
              Taken(strict, rs, qs, e) == Capped(Asked(qs, e), |Places(rs, e)|)
  {
    if qs != [] { TakenCapped(strict, rs, qs[..|qs| - 1], e); }
  }

  /** Unless it is strict and hashes were recorded, the k-th request of an execution
      gets its k-th record, and drifts exactly when it has no more. */
  lemma EachRequestGetsTheNext(s: Store, rs: seq<Record>, qs: seq<Request>, e: Exec, hash: string)
    requires Loaded(s, rs) && forall q :: q in qs ==> q.For?
    requires !s.strict || forall place :: place in Places(rs, e) ==> HashOf(rs, place) == ""
    ensures var k, own := Asked(qs, e), Places(rs, e);
      Answer(After(s, qs), For(e, hash))
        == if own == [] then Missed(UnknownExec) else if k < |own| then Served(own[k]) else Missed(Exhausted)
  {
    EachExecutionInOrder(s, rs, qs, e, hash);
    TakenCapped(s.strict, rs, qs, e);
  }

  /** A strict store keeps an execution at a record with a hash until a request brings
      that very hash. */
  lemma {:induction false} StrictHoldsExactlyUntil(rs: seq<Record>, qs: seq<Request>, more: seq<Request>, e: Exec)
    requires var k := Taken(true, rs, qs, e);
      k < |Places(rs, e)| && HashOf(rs, Places(rs, e)[k]) != ""
    ensures var k := Taken(true, rs, qs, e);
      && Taken(true, rs, qs + more, e) >= k
      && (Taken(true, rs, qs + more, e) > k <==> For(e, HashOf(rs, Places(rs, e)[k])) in more)
  {
    if more == [] {
      assert qs + more == qs;
    } else {
      var most, q := more[..|more| - 1], more[|more| - 1];
      StrictHoldsExactlyUntil(rs, qs, most, e);
      assert (qs + more)[..|qs + more| - 1] == qs + most;
      assert more == most + [q];
    }
  }

  // ----------------------------------------------------- recorded and replayed

  lemma {:induction false} PlacesShowOwn(rs: seq<Record>, e: Exec)
    ensures |Places(rs, e)| == |Own(Unnumbered(rs), e)|
    ensures forall k :: 0 <= k < |Places(rs, e)| ==>
      Places(rs, e)[k] < |rs| && SaidBy(rs[Places(rs, e)[k]]) == Own(Unnumbered(rs), e)[k]
  {
    if rs != [] {
      PlacesShowOwn(rs[..|rs| - 1], e);
      assert Unnumbered(rs)[..|rs| - 1] == Unnumbered(rs[..|rs| - 1]);
    }
  }

  function Fixture(ms: seq<Msg>): seq<Record> {
    AllNumbered(Grouped(Replies(ms)))
  }

  lemma {:induction false} NoHashes(gs: seq<Group>)
    ensures forall r :: r in AllNumbered(gs) ==> r.hash == ""
  {
    if gs != [] { NoHashes(gs[..|gs| - 1]); }
  }

  /** Recording then replaying, strictly or not: the k-th request of an execution gets
      the k-th reply that execution gave in the log, whatever was recorded or asked in
      between. */
  lemma ReplayGivesEachItsReplies(ms: seq<Msg>, s: Store, qs: seq<Request>, e: Exec, hash: string)
    requires Loaded(s, Fixture(ms)) && forall q :: q in qs ==> q.For?
    ensures var k, own, a := Asked(qs, e), Own(Replies(ms), e), Answer(After(s, qs), For(e, hash));
      && (a.Served? <==> k < |own|)
      && (a.Served? ==> a.place < |Fixture(ms)| && SaidBy(Fixture(ms)[a.place]) == own[k])
  {
    var rs := Fixture(ms);
    NoHashes(Grouped(Replies(ms)));
    EachRequestGetsTheNext(s, rs, qs, e, hash);
    PlacesShowOwn(rs, e);
    GroupedIsTidy(Replies(ms));
    NumberingKeepsReplies(Grouped(Replies(ms)));
    GroupingKeepsEachOrder(Replies(ms), e);
  }

  /** Replaying in plain order gives the log's replies in the log's order exactly
      when no execution spoke again after another one had spoken. */
  lemma PlainReplayIsOriginalExactly(ms: seq<Msg>, s: Store)
    requires Loaded(s, Fixture(ms))
    ensures (|Fixture(ms)| == |Replies(ms)| && forall n :: 0 <= n < |Fixture(ms)| ==> AnswersWith(s, n, Replies(ms)[n]))
            <==> Contiguous(Replies(ms))
  {
    var rs := Fixture(ms);
    RecordedInOrderExactly(ms);
    forall n: nat | n < |rs|
      ensures Answer(After(s, AnyTimes(n)), Any) == Served(n) && After(s, AnyTimes(n)).ordered == rs
    {
      PlainOrderServesFixture(s, rs, n, rs[n].exec);
      PlainRun(s, rs, n);
    }
    if |rs| == |Replies(ms)| && forall n :: 0 <= n < |rs| ==> AnswersWith(s, n, Replies(ms)[n]) {
      forall n: nat | n < |rs| ensures Unnumbered(rs)[n] == Replies(ms)[n] { assert AnswersWith(s, n, Replies(ms)[n]); }
      assert Unnumbered(rs) == Replies(ms);
    }
    if Unnumbered(rs) == Replies(ms) {
      forall n: nat | n < |rs| ensures AnswersWith(s, n, Replies(ms)[n]) { assert Unnumbered(rs)[n] == Replies(ms)[n]; }
    }
  }

  /** The n-th request in plain order is answered with this reply. */
  ghost predicate AnswersWith(s: Store, n: nat, r: Said) {
    var t := After(s, AnyTimes(n));
    var a := Answer(t, Any);
    a.Served? && a.place < |t.ordered| && SaidBy(t.ordered[a.place]) == r
  }
}
