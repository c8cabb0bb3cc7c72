/** Authentication against the peer file, and the life of one bearer token. */
module PeerTokens {
  import opened Wrappers
  import opened Peers
  import UrlPolicy

  type Snapshot = map<string, Peer>

  function Collect(ps: seq<Peer>): Snapshot {
    if ps == [] then map[] else Collect(ps[..|ps| - 1])[ps[|ps| - 1].node := ps[|ps| - 1]]
  }

  lemma {:induction false} CollectsAll(ps: seq<Peer>)
    requires UniqueNodes(ps)
    ensures forall n, p :: n in Collect(ps) && Collect(ps)[n] == p <==> p in ps && p.node == n
  {
    if ps != [] {
      var most, last := ps[..|ps| - 1], ps[|ps| - 1];
      CollectsAll(most);
      assert ps == most + [last];
      assert forall p :: p in ps <==> p in most || p == last;
    }
  }

  ghost predicate MatchAt(p: Peer, j: nat, hash: Hash, now: Instant)
    requires j < |p.inbound|
  {
    Active(p.inbound[j], now) && p.inbound[j].hash == hash
  }

  /** `p` holds an active credential for the token with this hash. */
  ghost predicate Accepts(p: Peer, hash: Hash, now: Instant) {
    exists j: nat :: j < |p.inbound| && MatchAt(p, j, hash, now)
  }

  ghost function Accepting(s: Snapshot, hash: Hash, now: Instant): set<string> {
    set n | n in s && Accepts(s[n], hash, now)
  }

  /** Looks at every credential of a peer before it answers. */
  method PeerMatches(p: Peer, hash: Hash, now: Instant) returns (found: bool)
    ensures found <==> Accepts(p, hash, now)
  {
    found := false;
    for j := 0 to |p.inbound|
      invariant found <==> exists m: nat :: m < j && MatchAt(p, m, hash, now)
    {
      if Active(p.inbound[j], now) {
        assert p.inbound[j].hash == hash ==> MatchAt(p, j, hash, now);
        found := p.inbound[j].hash == hash || found;
      }
    }
  }

  /** Visits the peers in some order and gives up at a second match. */
  method Authenticate(s: Snapshot, hash: Hash, now: Instant) returns (r: Option<Peer>)
    ensures r.Some? <==> |Accepting(s, hash, now)| == 1
    ensures r.Some? ==> exists n :: n in Accepting(s, hash, now) && s[n] == r.value
  {
    r := None;
    var rest := s.Keys;
    ghost var hits: set<string> := {};
    while rest != {}
      invariant rest <= s.Keys
      invariant hits == Accepting(s, hash, now) - rest
      invariant r.None? ==> hits == {}
      invariant r.Some? ==> exists n :: n in s && hits == {n} && r.value == s[n]
      decreases rest
    {
      var n :| n in rest;
      var hit := PeerMatches(s[n], hash, now);
      if hit {
        if r.Some? {
          TwoAreNotOne(Accepting(s, hash, now), hits, n);
          return None;
        }
        r := Some(s[n]);
        hits := hits + {n};
      }
      rest := rest - {n};
    }
    assert hits == Accepting(s, hash, now);
  }

  lemma TwoAreNotOne(all: set<string>, hits: set<string>, n: string)
    requires hits <= all && n in all && n !in hits && hits != {}
    ensures |all| != 1
  {
    var m :| m in hits;
    assert all == {m, n} + (all - {m, n});
    assert |{m, n}| == 2;
  }

  // ---------------------------------------------------- the life of one token

  ghost predicate Shares(c: Cred, k: Cred) {
    c.hash == k.hash || c.id == k.id
  }

  /** No credential of `p` shares its id or its hash with `k`. */
  ghost predicate Clean(p: Peer, k: Cred) {
    forall c :: c in p.inbound ==> !Shares(c, k)
  }

  ghost predicate OnlyAt(ks: seq<Cred>, j: nat, k: Cred)
    requires j < |ks|
  {
    ks[j] == k && forall m :: 0 <= m < |ks| && m != j ==> !Shares(ks[m], k)
  }

  ghost predicate HasOnce(p: Peer, k: Cred) {
    exists j: nat :: j < |p.inbound| && OnlyAt(p.inbound, j, k)
  }

  ghost predicate Live(ps: seq<Peer>, node: string, k: Cred) {
    && (exists p :: p in ps && p.node == node)
    && forall p :: p in ps ==> if p.node == node then HasOnce(p, k) else Clean(p, k)
  }

  /** Only revoked credentials, if any, carry the hash of `k`. */
  ghost predicate Dead(ps: seq<Peer>, k: Cred) {
    forall p, c :: p in ps && c in p.inbound && c.hash == k.hash ==> c.revoked.Some?
  }

  ghost predicate Unseen(ps: seq<Peer>, k: Cred) {
    forall p :: p in ps ==> Clean(p, k)
  }

  predicate Ends(op: Op, node: string, id: string) {
    op == Remove(node) || op == Revoke(node, id)
  }

  predicate Foreign(op: Op, k: Cred) {
    op.Issue? ==> op.id != k.id && op.hash != k.hash
  }

  lemma AppendKeepsOnce(p: Peer, k: Cred, c: Cred)
    requires HasOnce(p, k) && !Shares(c, k)
    ensures HasOnce(p.(inbound := p.inbound + [c]), k)
  {
    var j: nat :| j < |p.inbound| && OnlyAt(p.inbound, j, k);
    assert OnlyAt(p.inbound + [c], j, k);
  }

  lemma RevokeOtherKeepsOnce(p: Peer, k: Cred, i: nat, at: Instant)
    requires HasOnce(p, k) && i < |p.inbound| && p.inbound[i].id != k.id
    ensures HasOnce(p.(inbound := Revoked(p.inbound, i, at)), k)
  {
    var j: nat :| j < |p.inbound| && OnlyAt(p.inbound, j, k);
    assert OnlyAt(Revoked(p.inbound, i, at), j, k);
  }

  lemma RevokeKills(p: Peer, k: Cred, at: Instant)
    requires HasOnce(p, k)
    ensures var i := CredIndex(p.inbound, k.id);
      i < |p.inbound| && forall c :: c in Revoked(p.inbound, i, at) && c.hash == k.hash ==> c.revoked.Some?
  {
    var j: nat :| j < |p.inbound| && OnlyAt(p.inbound, j, k);
    var i := CredIndex(p.inbound, k.id);
    assert Shares(p.inbound[j], k);
    if i != j { assert i < |p.inbound| && Shares(p.inbound[i], k); }
  }

  lemma BaseIsMember(op: Op, ps: seq<Peer>, now: Instant)
    requires UniqueNodes(ps) && (op.Issue? || op.Add?)
    ensures var p := Base(op, ps, now);
      if exists q :: q in ps && q.node == op.peer then p in ps && p.node == op.peer else p.inbound == []
  {
    var i := IndexOf(ps, op.peer);
    if i < |ps| { assert ps[i] in ps; }
  }

  /** Its own peer, written by an edit that does not end it, still holds the token. */
  lemma WrittenHolds(net: UrlPolicy.Net, ps: seq<Peer>, op: Op, now: Instant, node: string, k: Cred)
    requires UniqueNodes(ps) && Guard(net, op).None? && Edit(net, ps, op, now).Ok?
    requires Live(ps, node, k) && Foreign(op, k) && !op.Remove? && op.peer == node && !Ends(op, node, k.id)
    ensures HasOnce(Written(net, ps, op, now), k)
  {
    if op.Revoke? {
      var p := ps[IndexOf(ps, op.peer)];
      assert p in ps;
      RevokeOtherKeepsOnce(p, k, CredIndex(p.inbound, op.cred), now);
    } else {
      BaseIsMember(op, ps, now);
      var p := Base(op, ps, now);
      assert HasOnce(p, k);
      if op.Issue? { AppendKeepsOnce(p, k, NewCred(op, now)); }
      else {
        var j: nat :| j < |p.inbound| && OnlyAt(p.inbound, j, k);
        assert OnlyAt(Written(net, ps, op, now).inbound, j, k);
      }
    }
  }

  /** A peer without the token, written by an edit, is still without it. */
  lemma WrittenClean(net: UrlPolicy.Net, ps: seq<Peer>, op: Op, now: Instant, k: Cred)
    requires UniqueNodes(ps) && Guard(net, op).None? && Edit(net, ps, op, now).Ok?
    requires (forall p :: p in ps && p.node == op.peer ==> Clean(p, k)) && Foreign(op, k) && !op.Remove?
    ensures Clean(Written(net, ps, op, now), k)
  {
    if op.Revoke? {
      var p := ps[IndexOf(ps, op.peer)];
      assert p in ps;
      RevokedClean(p, k, CredIndex(p.inbound, op.cred), now);
    } else {
      BaseIsMember(op, ps, now);
    }
  }

  lemma EndKills(net: UrlPolicy.Net, ps: seq<Peer>, op: Op, now: Instant, node: string, k: Cred)
    requires UniqueNodes(ps) && Guard(net, op).None? && Edit(net, ps, op, now).Ok?
    requires Live(ps, node, k) && Ends(op, node, k.id)
    ensures Dead(Edit(net, ps, op, now).value, k)
  {
    EditPeerByPeer(net, ps, op, now);
    CleanIsDead(ps, node, k);
    if op.Revoke? {
      assert ps[IndexOf(ps, node)] in ps;
      RevokeKills(ps[IndexOf(ps, node)], k, now);
    }
  }

  /** One edit: a live token stays live unless the edit ends it, and then it is dead. */
  lemma LiveStep(net: UrlPolicy.Net, ps: seq<Peer>, op: Op, now: Instant, node: string, k: Cred)
    requires UniqueNodes(ps) && Guard(net, op).None? && Edit(net, ps, op, now).Ok?
    requires Live(ps, node, k) && Foreign(op, k)
    ensures var ps' := Edit(net, ps, op, now).value;
      if Ends(op, node, k.id) then Dead(ps', k) else Live(ps', node, k)
  {
    EditPeerByPeer(net, ps, op, now);
    var p0 :| p0 in ps && p0.node == node;
    if Ends(op, node, k.id) {
      EndKills(net, ps, op, now, node, k);
    } else if !op.Remove? {
      assert Written(net, ps, op, now) in Edit(net, ps, op, now).value;
      if op.peer == node { WrittenHolds(net, ps, op, now, node, k); } else { WrittenClean(net, ps, op, now, k); }
    }
  }

  lemma CleanIsDead(ps: seq<Peer>, node: string, k: Cred)
    requires Live(ps, node, k)
    ensures forall p, c :: p in ps && p.node != node && c in p.inbound ==> c.hash != k.hash
  {
    forall p, c | p in ps && p.node != node && c in p.inbound ensures c.hash != k.hash {
      assert Clean(p, k);
      assert !Shares(c, k);
    }
  }

  lemma RevokedClean(p: Peer, k: Cred, i: nat, at: Instant)
    requires Clean(p, k) && i < |p.inbound|
    ensures Clean(p.(inbound := Revoked(p.inbound, i, at)), k)
  {
    forall c | c in Revoked(p.inbound, i, at) ensures !Shares(c, k) {
      assert c in p.inbound || c == p.inbound[i].(revoked := Some(at));
      assert !Shares(p.inbound[i], k);
    }
  }

  lemma DeadStep(net: UrlPolicy.Net, ps: seq<Peer>, op: Op, now: Instant, k: Cred)
    requires UniqueNodes(ps) && Guard(net, op).None? && Edit(net, ps, op, now).Ok?
    requires Dead(ps, k) && Foreign(op, k)
    ensures Dead(Edit(net, ps, op, now).value, k)
  {
    EditPeerByPeer(net, ps, op, now);
    if op.Issue? || op.Add? { BaseIsMember(op, ps, now); }
    if op.Revoke? { assert ps[IndexOf(ps, op.peer)] in ps; }
  }

  lemma UnseenStep(net: UrlPolicy.Net, ps: seq<Peer>, op: Op, now: Instant, k: Cred)
    requires UniqueNodes(ps) && Guard(net, op).None? && Edit(net, ps, op, now).Ok?
    requires Unseen(ps, k) && Foreign(op, k)
    ensures Unseen(Edit(net, ps, op, now).value, k)
  {
    EditPeerByPeer(net, ps, op, now);
    if !op.Remove? { WrittenClean(net, ps, op, now, k); }
  }

  lemma IssueBringsLive(net: UrlPolicy.Net, ps: seq<Peer>, op: Op, now: Instant)
    requires UniqueNodes(ps) && Guard(net, op).None? && Edit(net, ps, op, now).Ok?
    requires op.Issue? && Unseen(ps, NewCred(op, now))
    ensures Live(Edit(net, ps, op, now).value, op.peer, NewCred(op, now))
  {
    EditPeerByPeer(net, ps, op, now);
    BaseIsMember(op, ps, now);
    var k, p, w := NewCred(op, now), Base(op, ps, now), Written(net, ps, op, now);
    assert w in Edit(net, ps, op, now).value;
    assert forall c :: c in p.inbound ==> !Shares(c, k);
    assert OnlyAt(w.inbound, |p.inbound|, k);
  }

  // ------------------------------------------------------------------- runs

  ghost predicate Took(net: UrlPolicy.Net, ds: seq<Disk>, calls: seq<Call>, i: nat)
    requires |ds| == |calls| + 1 && i < |calls|
  {
    Planned(net, ds[i], calls[i].op, calls[i].clock, calls[i].env).Ok? && !calls[i].env.WriteFails?
  }

  /** One call: the file is as it was, or is the edit of what it was. */
  lemma CallEdits(net: UrlPolicy.Net, ds: seq<Disk>, calls: seq<Call>, i: nat)
    requires IsRun(net, ds, calls) && i < |calls| && (ds[i].Missing? || ds[i].Parsed?)
    ensures ds[i + 1].Missing? || ds[i + 1].Parsed?
    ensures if Took(net, ds, calls, i)
            then Guard(net, calls[i].op).None?
                 && Edit(net, PeersOn(ds[i]), calls[i].op, calls[i].clock.edit) == Ok(PeersOn(ds[i + 1]))
            else PeersOn(ds[i + 1]) == PeersOn(ds[i])
  {
    assert NextAt(net, ds, calls, i);
  }

  lemma {:induction false} NodesStayUnique(net: UrlPolicy.Net, ds: seq<Disk>, calls: seq<Call>, i: nat)
    requires IsRun(net, ds, calls) && i < |ds|
    ensures (ds[i].Missing? || ds[i].Parsed?) && UniqueNodes(PeersOn(ds[i]))
  {
    if i > 0 {
      NodesStayUnique(net, ds, calls, i - 1);
      CallEdits(net, ds, calls, i - 1);
      if Took(net, ds, calls, i - 1) {
        EditPeerByPeer(net, PeersOn(ds[i - 1]), calls[i - 1].op, calls[i - 1].clock.edit);
      }
    }
  }

  /** Random ids and token hashes do not repeat. */
  ghost predicate FreshDraws(calls: seq<Call>) {
    forall a, b :: 0 <= a < b < |calls| && calls[a].op.Issue? && calls[b].op.Issue? ==>
      calls[a].op.id != calls[b].op.id && calls[a].op.hash != calls[b].op.hash
  }

  lemma CallKeepsUnseen(net: UrlPolicy.Net, ds: seq<Disk>, calls: seq<Call>, m: nat, k: Cred)
    requires IsRun(net, ds, calls) && m < |calls| && Foreign(calls[m].op, k)
    requires (ds[m].Missing? || ds[m].Parsed?) && UniqueNodes(PeersOn(ds[m])) && Unseen(PeersOn(ds[m]), k)
    ensures Unseen(PeersOn(ds[m + 1]), k)
  {
    CallEdits(net, ds, calls, m);
    if Took(net, ds, calls, m) { UnseenStep(net, PeersOn(ds[m]), calls[m].op, calls[m].clock.edit, k); }
  }

  lemma {:induction false} UnseenBefore(net: UrlPolicy.Net, ds: seq<Disk>, calls: seq<Call>, i: nat, k: Cred)
    requires IsRun(net, ds, calls) && i < |ds| && forall m :: 0 <= m < i ==> Foreign(calls[m].op, k)
    ensures Unseen(PeersOn(ds[i]), k)
  {
    if i > 0 {
      UnseenBefore(net, ds, calls, i - 1, k);
      NodesStayUnique(net, ds, calls, i - 1);
      CallKeepsUnseen(net, ds, calls, i - 1, k);
    }
  }

  ghost predicate EndedAt(net: UrlPolicy.Net, ds: seq<Disk>, calls: seq<Call>, m: nat, node: string, id: string)
    requires |ds| == |calls| + 1 && m < |calls|
  {
    Took(net, ds, calls, m) && Ends(calls[m].op, node, id)
  }

  ghost predicate EndedIn(
    net: UrlPolicy.Net, ds: seq<Disk>, calls: seq<Call>, from: nat, to: nat, node: string, id: string)
    requires |ds| == |calls| + 1 && to < |ds|
  {
    exists m: nat :: from < m < to && EndedAt(net, ds, calls, m, node, id)
  }

  /** One call: dead stays dead, and live stays live unless the call ends it. */
  lemma CallMovesToken(net: UrlPolicy.Net, ds: seq<Disk>, calls: seq<Call>, m: nat, node: string, k: Cred)
    requires IsRun(net, ds, calls) && m < |calls| && Foreign(calls[m].op, k)
    requires (ds[m].Missing? || ds[m].Parsed?) && UniqueNodes(PeersOn(ds[m]))
    ensures Dead(PeersOn(ds[m]), k) ==> Dead(PeersOn(ds[m + 1]), k)
    ensures Live(PeersOn(ds[m]), node, k) ==>
      if EndedAt(net, ds, calls, m, node, k.id) then Dead(PeersOn(ds[m + 1]), k) else Live(PeersOn(ds[m + 1]), node, k)
  {
    CallEdits(net, ds, calls, m);
    if Took(net, ds, calls, m) {
      var ps, op, now := PeersOn(ds[m]), calls[m].op, calls[m].clock.edit;
      if Dead(ps, k) { DeadStep(net, ps, op, now, k); }
      if Live(ps, node, k) { LiveStep(net, ps, op, now, node, k); }
    }
  }

  lemma OthersAreForeign(calls: seq<Call>, i: nat, m: nat)
    requires FreshDraws(calls) && i < |calls| && m < |calls| && m != i && calls[i].op.Issue?
    ensures Foreign(calls[m].op, NewCred(calls[i].op, calls[i].clock.edit))
  {}

  lemma LiveAtFirst(net: UrlPolicy.Net, ds: seq<Disk>, calls: seq<Call>, i: nat)
    requires IsRun(net, ds, calls) && FreshDraws(calls) && i < |calls|
    requires calls[i].op.Issue? && Took(net, ds, calls, i)
    ensures Live(PeersOn(ds[i + 1]), calls[i].op.peer, NewCred(calls[i].op, calls[i].clock.edit))
  {
    var k := NewCred(calls[i].op, calls[i].clock.edit);
    forall m | 0 <= m < i ensures Foreign(calls[m].op, k) { OthersAreForeign(calls, i, m); }
    UnseenBefore(net, ds, calls, i, k);
    NodesStayUnique(net, ds, calls, i);
    CallEdits(net, ds, calls, i);
    IssueBringsLive(net, PeersOn(ds[i]), calls[i].op, calls[i].clock.edit);
  }

  /** The token of a credential after step `i`: dead once it was ended, else live. */
  ghost predicate Fate(net: UrlPolicy.Net, ds: seq<Disk>, calls: seq<Call>, i: nat, j: nat, node: string, k: Cred)
    requires |ds| == |calls| + 1 && j < |ds|
  {
    if EndedIn(net, ds, calls, i, j, node, k.id) then Dead(PeersOn(ds[j]), k) else Live(PeersOn(ds[j]), node, k)
  }

  lemma FateAtFirst(net: UrlPolicy.Net, ds: seq<Disk>, calls: seq<Call>, i: nat)
    requires IsRun(net, ds, calls) && FreshDraws(calls) && i < |calls|
    requires calls[i].op.Issue? && Took(net, ds, calls, i)
    ensures Fate(net, ds, calls, i, i + 1, calls[i].op.peer, NewCred(calls[i].op, calls[i].clock.edit))
  {
    LiveAtFirst(net, ds, calls, i);
  }

  lemma LiveOrDeadStep(
    net: UrlPolicy.Net, ds: seq<Disk>, calls: seq<Call>, i: nat, last: nat, node: string, k: Cred)
    requires IsRun(net, ds, calls) && i < last < |calls| && Foreign(calls[last].op, k)
    requires Fate(net, ds, calls, i, last, node, k)
    ensures Fate(net, ds, calls, i, last + 1, node, k)
  {
    EndedOneMore(net, ds, calls, i, last, node, k.id);
    NodesStayUnique(net, ds, calls, last);
    CallMovesToken(net, ds, calls, last, node, k);
  }

  lemma {:induction false} FateGoesOn(
    net: UrlPolicy.Net, ds: seq<Disk>, calls: seq<Call>, i: nat, j: nat, node: string, k: Cred)
    requires IsRun(net, ds, calls) && i < j < |ds| && Fate(net, ds, calls, i, i + 1, node, k)
    requires forall m :: i < m < j ==> Foreign(calls[m].op, k)
    ensures Fate(net, ds, calls, i, j, node, k)
    decreases j
  {
    if i + 1 < j {
      FateGoesOn(net, ds, calls, i, j - 1, node, k);
      LiveOrDeadStep(net, ds, calls, i, j - 1, node, k);
    }
  }

  lemma LiveOrDead(net: UrlPolicy.Net, ds: seq<Disk>, calls: seq<Call>, i: nat, j: nat, node: string, k: Cred)
    requires IsRun(net, ds, calls) && FreshDraws(calls) && i < j < |ds|
    requires calls[i].op.Issue? && Took(net, ds, calls, i)
    requires node == calls[i].op.peer && k == NewCred(calls[i].op, calls[i].clock.edit)
    ensures Fate(net, ds, calls, i, j, node, k)
  {
    FateAtFirst(net, ds, calls, i);
    forall m | i < m < j ensures Foreign(calls[m].op, k) { OthersAreForeign(calls, i, m); }
    FateGoesOn(net, ds, calls, i, j, node, k);
  }

  lemma EndedOneMore(
    net: UrlPolicy.Net, ds: seq<Disk>, calls: seq<Call>, i: nat, last: nat, node: string, id: string)
    requires |ds| == |calls| + 1 && i < last < |calls|
    ensures EndedIn(net, ds, calls, i, last + 1, node, id)
            <==> EndedIn(net, ds, calls, i, last, node, id) || EndedAt(net, ds, calls, last, node, id)
  {
    if EndedIn(net, ds, calls, i, last, node, id) {
      var m: nat :| i < m < last && EndedAt(net, ds, calls, m, node, id);
    }
  }

  ghost function AcceptingNodes(ps: seq<Peer>, hash: Hash, now: Instant): set<string> {
    Accepting(Collect(ps), hash, now)
  }

  lemma LiveAuthenticates(ps: seq<Peer>, node: string, k: Cred, t: Instant)
    requires UniqueNodes(ps) && Live(ps, node, k) && k.revoked.None?
    ensures AcceptingNodes(ps, k.hash, t) == if t < k.expires then {node} else {}
  {
    CollectsAll(ps);
    CleanIsDead(ps, node, k);
    var p :| p in ps && p.node == node;
    var j: nat :| j < |p.inbound| && OnlyAt(p.inbound, j, k);
    assert t < k.expires ==> MatchAt(p, j, k.hash, t);
    assert forall m :: 0 <= m < |p.inbound| && p.inbound[m].hash == k.hash ==> Shares(p.inbound[m], k);
  }

  lemma DeadNeverAuthenticates(ps: seq<Peer>, k: Cred, t: Instant)
    requires UniqueNodes(ps) && Dead(ps, k)
    ensures AcceptingNodes(ps, k.hash, t) == {}
  {
    CollectsAll(ps);
  }

  /** The clock while the file is loaded, checked once more, and searched. */
  datatype Look = Look(load: Readings, check: Readings, at: Instant)

  /** The peers that accept a token, told from the file as it lies there: before they
      are asked the file has to load, and to pass its checks a second time. */
  ghost function Admitted(net: UrlPolicy.Net, d: Disk, hash: Hash, look: Look): Result<set<string>, Error> {
    var loaded := Load(net, d, Fine, look.load);
    if loaded.Err? then Err(loaded.error)
    else
      var e := ValidateFile(net, loaded.value, look.check);
      if e.Some? then Err(e.value) else Ok(AcceptingNodes(loaded.value.peers, hash, look.at))
  }

  /** On any clock: the file is read exactly while no peer shows too many active
      credentials, on loading and on the second check. */
  lemma AdmitsExactlyWithinCap(net: UrlPolicy.Net, ds: seq<Disk>, calls: seq<Call>, j: nat, hash: Hash, look: Look)
    requires IsRun(net, ds, calls) && j < |ds|
    ensures var ps := PeersOn(ds[j]);
      Admitted(net, ds[j], hash, look)
        == if WithinCap(ps, look.load) && WithinCap(ps, look.check)
           then Ok(AcceptingNodes(ps, hash, look.at)) else Err(TooManyActive)
  {
    LoadsExactlyWithinCap(net, ds, calls, j, look.load);
    LoadsExactlyWithinCap(net, ds, calls, j, look.check);
    SoundApartFromTheClock(net, ds, calls, j);
  }

  /** When a token that the call issued runs out: as many days after as were asked for,
      or 90 when no lifetime was; a day has 86,400,000 ms. */
  function RunsOut(c: Call): Instant
    requires c.op.Issue?
  {
    c.clock.edit + (if c.op.days.Some? then c.op.days.value else 90) * 86_400_000
  }

  lemma IssuedRunsOut(c: Call)
    requires c.op.Issue?
    ensures var k := NewCred(c.op, c.clock.edit);
      k.id == c.op.id && k.hash == c.op.hash && k.expires == RunsOut(c) && k.created == c.clock.edit && k.revoked.None?
  {}

  /** The peers holding an issued token: its own and no other, exactly until it
      runs out, is revoked, or its peer is removed. */
  lemma HoldersExactlyUntil(net: UrlPolicy.Net, ds: seq<Disk>, calls: seq<Call>, i: nat, j: nat, t: Instant)
    requires IsRun(net, ds, calls) && FreshDraws(calls) && i < j < |ds|
    requires calls[i].op.Issue? && Took(net, ds, calls, i)
    ensures var op := calls[i].op;
      AcceptingNodes(PeersOn(ds[j]), op.hash, t)
        == if t < RunsOut(calls[i]) && !EndedIn(net, ds, calls, i, j, op.peer, op.id) then {op.peer} else {}
  {
    var node, k := calls[i].op.peer, NewCred(calls[i].op, calls[i].clock.edit);
    IssuedRunsOut(calls[i]);
    NodesStayUnique(net, ds, calls, j);
    LiveOrDead(net, ds, calls, i, j, node, k);
    if EndedIn(net, ds, calls, i, j, node, k.id) { DeadNeverAuthenticates(PeersOn(ds[j]), k, t); }
    else { LiveAuthenticates(PeersOn(ds[j]), node, k, t); }
  }

  /** A token that was issued authenticates its own peer and no other, exactly while
      the file can be read and until the lifetime asked for is over, the token is
      revoked, or its peer removed; whatever else is called in between, and whatever
      fails. */
  lemma TokenWorksExactlyUntil(
    net: UrlPolicy.Net, ds: seq<Disk>, calls: seq<Call>, i: nat, j: nat, look: Look)
    requires IsRun(net, ds, calls) && FreshDraws(calls) && i < j < |ds|
    requires calls[i].op.Issue? && Took(net, ds, calls, i)
    ensures var op, ps := calls[i].op, PeersOn(ds[j]);
      Admitted(net, ds[j], op.hash, look)
        == if !WithinCap(ps, look.load) || !WithinCap(ps, look.check) then Err(TooManyActive)
           else if look.at < RunsOut(calls[i]) && !EndedIn(net, ds, calls, i, j, op.peer, op.id)
           then Ok({op.peer}) else Ok({})
  {
    AdmitsExactlyWithinCap(net, ds, calls, j, calls[i].op.hash, look);
    HoldersExactlyUntil(net, ds, calls, i, j, look.at);
  }

  /** While the clock runs forward the file can always be read. */
  lemma TokenWorksOnForwardClock(
    net: UrlPolicy.Net, ds: seq<Disk>, calls: seq<Call>, i: nat, j: nat, look: Look)
    requires IsRun(net, ds, calls) && FreshDraws(calls) && i < j < |ds| && ClockForward(calls)
    requires calls[i].op.Issue? && Took(net, ds, calls, i)
    requires forall m :: 0 <= m < j ==>
      Before(calls[m].clock.store, look.load) && Before(calls[m].clock.store, look.check)
    ensures var op := calls[i].op;
      Admitted(net, ds[j], op.hash, look)
        == if look.at < RunsOut(calls[i]) && !EndedIn(net, ds, calls, i, j, op.peer, op.id)
           then Ok({op.peer}) else Ok({})
  {
    TokenWorksExactlyUntil(net, ds, calls, i, j, look);
    EveryFileReloads(net, ds, calls, j, look.load);
    LoadsExactlyWithinCap(net, ds, calls, j, look.load);
    EveryFileReloads(net, ds, calls, j, look.check);
    LoadsExactlyWithinCap(net, ds, calls, j, look.check);
  }

  /** The `n`-th of some issues, whose token is refused though it is good at `now`. */
  ghost predicate ShutOut(net: UrlPolicy.Net, ds: seq<Disk>, calls: seq<Call>, n: nat, now: Instant)
    requires |ds| == |calls| + 1 && n < |calls|
  {
    && calls[n].op.Issue? && Took(net, ds, calls, n)
    && now < RunsOut(calls[n]) && !EndedIn(net, ds, calls, n, |calls|, calls[n].op.peer, calls[n].op.id)
    && Admitted(net, ds[|calls|], calls[n].op.hash, Look(Still(now), Still(now), now)) == Err(TooManyActive)
  }

  lemma DatedDiffer(m: nat, at: Instant, n: nat, later: Instant)
    requires m < n < 4
    ensures Dated(m, at).id != Dated(n, later).id && Dated(m, at).hash != Dated(n, later).hash
  {
    assert |Dated(m, at).id| == m + 1 && |Dated(n, later).id| == n + 1;
    assert Dated(m, at).hash[0] == m as bv8 && Dated(n, later).hash[0] == n as bv8;
  }

  lemma RotationsFresh(a: Cred, b: Cred, c: Cred, d: Cred)
    requires Rotated(a, b, c, d)
    ensures FreshDraws([Rotation(a), Rotation(b), Rotation(c), Rotation(d)])
  {
    DatedDiffer(0, 0, 1, 0);
    DatedDiffer(0, 0, 2, DAY);
    DatedDiffer(0, 0, 3, DAY);
    DatedDiffer(1, 0, 2, DAY);
    DatedDiffer(1, 0, 3, DAY);
    DatedDiffer(2, DAY, 3, DAY);
  }

  /** An issue that changed the file took, and nothing ends a token where there are
      only issues. */
  lemma IssuedAndShutOut(net: UrlPolicy.Net, ds: seq<Disk>, calls: seq<Call>, n: nat, k: Cred)
    requires IsRun(net, ds, calls) && n < |calls| && ds[n + 1] != ds[n]
    requires (forall m :: 0 <= m < |calls| ==> calls[m].op.Issue?) && calls[n] == Rotation(k)
    requires RunsOut(Rotation(k)) > 0
    requires Load(net, ds[|calls|], Fine, Still(0)) == Err(TooManyActive)
    ensures ShutOut(net, ds, calls, n, 0)
  {
    assert NextAt(net, ds, calls, n);
  }

  /** Some run leaves four issued tokens, of which none has expired or was ended at
      the earlier time, and at that time none of them is accepted. */
  lemma ClockSetBackShutsTokensOut(net: UrlPolicy.Net)
    ensures exists ds, calls :: IsRun(net, ds, calls) && FreshDraws(calls) && ClockForward(calls) && |calls| == 4
              && forall n: nat :: n < 4 ==> ShutOut(net, ds, calls, n, 0)
  {
    var a, b, c, d := Dated(0, 0), Dated(1, 0), Dated(2, DAY), Dated(3, DAY);
    var ds, calls := RotationsRun(net, a, b, c, d);
    RotationsForward(a, b, c, d);
    RotationsFresh(a, b, c, d);
    FourAreTooMany(net, a, b, c, d);
    ShelvesDiffer(a, b, c, d);
    IssuedAndShutOut(net, ds, calls, 0, a);
    IssuedAndShutOut(net, ds, calls, 1, b);
    IssuedAndShutOut(net, ds, calls, 2, c);
    IssuedAndShutOut(net, ds, calls, 3, d);
  }

  lemma ShelvesDiffer(a: Cred, b: Cred, c: Cred, d: Cred)
    ensures Shelf([a]) != Missing && Shelf([a]) != Shelf([a, b])
    ensures Shelf([a, b]) != Shelf([a, b, c]) && Shelf([a, b, c]) != Shelf([a, b, c, d])
  {
    assert |[a]| < |[a, b]| < |[a, b, c]| < |[a, b, c, d]|;
  }
}
