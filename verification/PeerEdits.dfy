/** What each operation does to the file of peers, entry by entry. */
module PeerEdits {
  // Nothing here is stated through the functions the operations are defined by: the
  // lists before and after are compared as they stand in the file.

  import opened Wrappers
  import opened Peers
  import UrlPolicy

  /** ASCII digits, letters, and the four marks '-', '.', ':' and '_'. */
  predicate Allowed(c: char) {
    var n := c as int;
    48 <= n <= 57 || 65 <= n <= 90 || 97 <= n <= 122 || n == 45 || n == 46 || n == 58 || n == 95
  }

  predicate Named(s: string, max: nat) {
    1 <= |s| <= max && forall i :: 0 <= i < |s| ==> Allowed(s[i])
  }

  lemma NamedIsValid(s: string, max: nat)
    ensures ValidId(s, max) <==> Named(s, max)
  {
    forall i | 0 <= i < |s| ensures IdChar(s[i]) <==> Allowed(s[i]) {}
  }

  /** A peer's fields are in order exactly with ids of these characters and lengths, a
      bounded name and token, and an origin that validates to itself. */
  lemma FieldsSay(net: UrlPolicy.Net, p: Peer)
    ensures FieldsOk(net, p) <==>
      && Named(p.node, 120) && Named(p.agent, 128) && 1 <= |p.name| <= 120
      && (p.outbound.Some? ==> 1 <= |p.outbound.value| <= 512)
      && (p.origin.Some? ==> UrlPolicy.ValidateOrigin(net, p.origin.value.origin, p.allowHttp) == Ok(p.origin.value))
  {
    NamedIsValid(p.node, 120);
    NamedIsValid(p.agent, 128);
  }

  lemma CredsSay(ks: seq<Cred>)
    ensures CredsOk(ks) <==> forall j :: 0 <= j < |ks| ==> Named(ks[j].id, 128) && |ks[j].hash| == 64
  {
    forall j | 0 <= j < |ks| { NamedIsValid(ks[j].id, 128); }
  }

  /** The file's own two limits, and which comes first. */
  lemma FileLimitsSay(net: UrlPolicy.Net, f: File, w: Readings)
    ensures f.version != 1 ==> ValidateFile(net, f, w) == Some(UnsupportedVersion)
    ensures f.version == 1 && |f.peers| > 256 ==> ValidateFile(net, f, w) == Some(TooManyPeers)
  {}

  ghost function ActivePlaces(ks: seq<Cred>, now: Instant): set<nat> {
    set j: nat | j < |ks| && ks[j].revoked == None && now < ks[j].expires
  }

  /** Credentials count while they are neither revoked nor run out. */
  lemma {:induction false} ActiveSays(ks: seq<Cred>, now: Instant)
    ensures ActiveCount(ks, now) == |ActivePlaces(ks, now)|
  {
    if ks != [] {
      var n := |ks| - 1;
      ActiveSays(ks[..n], now);
      var most, all := ActivePlaces(ks[..n], now), ActivePlaces(ks, now);
      if ks[n].revoked == None && now < ks[n].expires {
        assert all == most + {n as nat};
      } else {
        assert all == most;
      }
    }
  }

  // ------------------------------------------------------------------- edits

  /** Issuing appends one credential with the lifetime asked for, 90 days if none was,
      to the named peer, which is appended to the list first if it is not there. */
  lemma IssueSays(net: UrlPolicy.Net, ps: seq<Peer>, op: Op, now: Instant, ps': seq<Peer>)
    requires op.Issue? && Guard(net, op) == None && Edit(net, ps, op, now) == Ok(ps')
    ensures var days := if op.days.Some? then op.days.value else 90;
      var k := Cred(op.id, op.hash, now, now + days * 86_400_000, None);
      && (forall i :: 0 <= i < |ps| && ps[i].node == op.peer && (forall m :: 0 <= m < i ==> ps[m].node != op.peer) ==>
            ps' == ps[i := ps[i].(inbound := ps[i].inbound + [k])])
      && ((forall i :: 0 <= i < |ps| ==> ps[i].node != op.peer) ==>
            ps' == ps + [Peer(op.peer, if op.name.Some? then op.name.value else op.peer, None, op.agent, false, None,
                              [k], now)])
  {
    var days := if op.days.Some? then op.days.value else 90;
    var k := Cred(op.id, op.hash, now, now + days * 86_400_000, None);
    assert [] + [k] == [k];
  }

  /** Adding overwrites what the request names and keeps the credentials, or appends a
      peer without any. */
  lemma AddSays(net: UrlPolicy.Net, ps: seq<Peer>, op: Op, now: Instant, ps': seq<Peer>)
    requires op.Add? && Guard(net, op) == None && Edit(net, ps, op, now) == Ok(ps')
    ensures var o := UrlPolicy.ValidateOrigin(net, op.raw, op.allowHttp);
      && o.Ok?
      && (forall i :: 0 <= i < |ps| && ps[i].node == op.peer && (forall m :: 0 <= m < i ==> ps[m].node != op.peer) ==>
            ps' == ps[i := Peer(op.peer, op.display, Some(o.value), op.agent, op.allowHttp, op.outbound,
                                ps[i].inbound, ps[i].created)])
      && ((forall i :: 0 <= i < |ps| ==> ps[i].node != op.peer) ==>
            ps' == ps + [Peer(op.peer, op.display, Some(o.value), op.agent, op.allowHttp, op.outbound, [], now)])
  {}

  /** Removing takes out the named peer and leaves the others in their order. */
  lemma RemoveSays(net: UrlPolicy.Net, ps: seq<Peer>, op: Op, now: Instant, ps': seq<Peer>)
    requires op.Remove? && UniqueNodes(ps) && Edit(net, ps, op, now) == Ok(ps')
    ensures exists i :: 0 <= i < |ps| && ps[i].node == op.peer && ps' == ps[..i] + ps[i + 1..]
  {
    WithoutDrops(ps, op.peer);
    var i :| 0 <= i < |ps| && ps[i].node == op.peer;
    CutOut(ps, op.peer, i);
  }

  lemma {:induction false} CutOut(ps: seq<Peer>, node: string, i: nat)
    requires UniqueNodes(ps) && i < |ps| && ps[i].node == node
    ensures Without(ps, node) == ps[..i] + ps[i + 1..]
  {
    if i == 0 {
      KeepAll(ps[1..], node);
    } else {
      CutOut(ps[1..], node, i - 1);
      assert ps[..i] == [ps[0]] + ps[1..][..i - 1] && ps[1..][i..] == ps[i + 1..];
      assert ps[0].node != ps[i].node;
    }
  }

  lemma {:induction false} KeepAll(ps: seq<Peer>, node: string)
    requires forall i :: 0 <= i < |ps| ==> ps[i].node != node
    ensures Without(ps, node) == ps
  {
    if ps != [] { KeepAll(ps[1..], node); }
  }

  /** Revoking stamps the first credential of that id with the time, and no other. */
  lemma RevokeSays(net: UrlPolicy.Net, ps: seq<Peer>, op: Op, now: Instant, ps': seq<Peer>, i: nat, j: nat)
    requires op.Revoke? && Edit(net, ps, op, now) == Ok(ps')
    requires i < |ps| && ps[i].node == op.peer && forall m :: 0 <= m < i ==> ps[m].node != op.peer
    requires j < |ps[i].inbound| && ps[i].inbound[j].id == op.cred
    requires forall m :: 0 <= m < j ==> ps[i].inbound[m].id != op.cred
    ensures ps' == ps[i := ps[i].(inbound := ps[i].inbound[j := ps[i].inbound[j].(revoked := Some(now))])]
  {}

  // ---------------------------------------------------------------- refusals

  /** What is refused before the file is opened, and why. */
  lemma RequestRefusalsSay(net: UrlPolicy.Net, op: Op)
    ensures op.Issue? ==>
      var days := if op.days.Some? then op.days.value else 90;
      Guard(net, op) == if !(Named(op.peer, 120) && Named(op.agent, 128)) then Some(InvalidPeer)
                        else if days < 1 || days > 365 then Some(InvalidLifetime) else None
    ensures op.Add? ==>
      var o := UrlPolicy.ValidateOrigin(net, op.raw, op.allowHttp);
      Guard(net, op)
        == if !(Named(op.peer, 120) && Named(op.agent, 128) && 1 <= |op.display| <= 120) then Some(InvalidPeer)
           else if o.Err? then Some(Url(o.error)) else None
    ensures op.Remove? || op.Revoke? ==> Guard(net, op) == None
  {
    if op.Issue? || op.Add? {
      NamedIsValid(op.peer, 120);
      NamedIsValid(op.agent, 128);
    }
  }

  /** What is refused once the file is open, and why. */
  lemma EditRefusalsSay(net: UrlPolicy.Net, ps: seq<Peer>, op: Op, now: Instant)
    requires UniqueNodes(ps) && Guard(net, op) == None
    ensures var known := exists p :: p in ps && p.node == op.peer;
      match op
      case Issue(_, _, _, _, _, _) =>
        && (Edit(net, ps, op, now) == Err(TooManyPeers) <==> !known && |ps| >= 256)
        && (Edit(net, ps, op, now) == Err(TooManyActive) <==>
              exists p :: p in ps && p.node == op.peer && |ActivePlaces(p.inbound, now)| >= 2)
      case Add(_, _, _, _, _, _) => Edit(net, ps, op, now) == Err(TooManyPeers) <==> !known && |ps| >= 256
      case Remove(_) => Edit(net, ps, op, now) == Err(PeerNotFound) <==> !known
      case Revoke(_, cred) =>
        && (Edit(net, ps, op, now) == Err(PeerNotFound) <==> !known)
        && (Edit(net, ps, op, now) == Err(CredentialNotFound) <==>
              known && forall p, k :: p in ps && p.node == op.peer && k in p.inbound ==> k.id != cred)
  {
    var i := IndexOf(ps, op.peer);
    if i < |ps| {
      assert ps[i] in ps;
      forall p | p in ps && p.node == op.peer ensures p == ps[i] {}
      ActiveSays(ps[i].inbound, now);
    }
    if op.Remove? { WithoutDrops(ps, op.peer); }
    if op.Revoke? && i < |ps| {
      var j := CredIndex(ps[i].inbound, op.cred);
      assert j < |ps[i].inbound| ==> ps[i].inbound[j] in ps[i].inbound;
    }
  }

  /** What each state of the file is loaded as, and what is wrong with it otherwise. */
  lemma LoadsSay(net: UrlPolicy.Net, d: Disk, env: Env, w: Readings)
    ensures env == ReadFails ==> Load(net, d, env, w) == Err(Io)
    ensures env != ReadFails ==>
      && (d == Missing ==> Load(net, d, env, w) == Ok(File(1, [])))
      && (d == UnsafePath ==> Load(net, d, env, w) == Err(UnsafeFile))
      && (d == Garbled ==> Load(net, d, env, w) == Err(Json))
      && (d.Parsed? && d.file.version != 1 ==> Load(net, d, env, w) == Err(UnsupportedVersion))
      && (d.Parsed? && d.file.version == 1 && |d.file.peers| > 256 ==> Load(net, d, env, w) == Err(TooManyPeers))
    ensures env != ReadFails && d.Parsed? && d.file.version == 1 && |d.file.peers| <= 256 ==>
      var ps := d.file.peers;
      (Load(net, d, env, w) == Ok(d.file) <==> forall i :: 0 <= i < |ps| ==> PeerOk(net, ps[i], i, w))
  {
    if d.Parsed? { ValidatesExactly(net, d.file.peers, w); }
  }

  /** The error is that of the first peer not in order: its fields, then the number of its
      active credentials, then their ids and hashes. */
  lemma {:induction false} FirstFaultSays(net: UrlPolicy.Net, ps: seq<Peer>, i: nat, n: nat, w: Readings)
    requires i <= n < |ps| && !PeerOk(net, ps[n], n, w) && forall m :: i <= m < n ==> PeerOk(net, ps[m], m, w)
    ensures ValidatePeers(net, ps, i, w) ==
      if FieldsOk(net, ps[n]) && Seen(ps[n].inbound, n, w) > 2 then Some(TooManyActive) else Some(InvalidPeer)
    decreases n - i
  {
    if i < n { FirstFaultSays(net, ps, i + 1, n, w); }
  }

  lemma PlansAlike(net: UrlPolicy.Net, d: Disk, op: Op, clock: Clock, env: Env)
    ensures !env.ReadFails? ==> Planned(net, d, op, clock, env) == Planned(net, d, op, clock, Fine)
    ensures env.ReadFails? ==>
      Planned(net, d, op, clock, env) == if Guard(net, op).None? then Err(Io) else Planned(net, d, op, clock, Fine)
  {
    assert !env.ReadFails? ==> Load(net, d, env, clock.load) == Load(net, d, Fine, clock.load);
  }

  /** Whatever the file system does, an operation answers as on a sound one, or that it
      failed; the file is the old one unless the operation got as far as the rename. */
  lemma FaultsSay(net: UrlPolicy.Net, d: Disk, op: Op, clock: Clock, env: Env)
    ensures var sound, told := Answer(net, d, op, clock, Fine), Answer(net, d, op, clock, env);
      && (env.WriteFails? || env.ModeFails? ==> told == if sound.None? then Some(Io) else sound)
      && (env.ReadFails? ==> told == if Guard(net, op).None? then Some(Io) else sound)
    ensures NewDisk(net, d, op, clock, env)
         == if env.WriteFails? || env.ReadFails? then d else NewDisk(net, d, op, clock, Fine)
  {
    PlansAlike(net, d, op, clock, env);
  }
}
