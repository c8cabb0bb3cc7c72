/** The file of trusted peers: what each operation writes, and that it reloads. */
module Peers {
  import opened Wrappers
  import UrlPolicy

  const STORE_VERSION := 1
  const MAX_PEERS := 256
  const MAX_ACTIVE := 2
  const DEFAULT_DAYS := 90
  const MAX_DAYS := 365
  const DAY := 86_400_000

  type Hash = seq<bv8>
  type Instant = int

  datatype Cred = Cred(id: string, hash: Hash, created: Instant, expires: Instant, revoked: Option<Instant>)

  datatype Peer = Peer(
    node: string, name: string, origin: Option<UrlPolicy.PeerOrigin>, agent: string, allowHttp: bool,
    outbound: Option<seq<bv8>>, inbound: seq<Cred>, created: Instant)

  datatype File = File(version: nat, peers: seq<Peer>)

  /** What lies at the store's path. */
  datatype Disk = Missing | UnsafePath | Garbled | Parsed(file: File)

  datatype Error =
    | Io | Json | UnsupportedVersion | TooManyPeers | InvalidPeer | InvalidLifetime | TooManyActive
    | PeerNotFound | CredentialNotFound | UnsafeFile | Url(reason: UrlPolicy.UrlError)

  // --------------------------------------------------------------- validation

  predicate IdChar(c: char) {
    'a' <= c <= 'z' || 'A' <= c <= 'Z' || '0' <= c <= '9' || c == '-' || c == '_' || c == '.' || c == ':'
  }

  predicate Bounded(s: string, max: nat) {
    1 <= |s| <= max
  }

  predicate ValidId(s: string, max: nat) {
    Bounded(s, max) && forall i :: 0 <= i < |s| ==> IdChar(s[i])
  }

  predicate Active(k: Cred, now: Instant) {
    k.revoked.None? && k.expires > now
  }

  /** The clock as one validation reads it: once for every credential, by the places
      of the peer and of the credential. */
  type Readings = (nat, nat) -> Instant

  function Still(now: Instant): Readings {
    (i, j) => now
  }

  /** The credentials of the `i`-th peer that were active when looked at. */
  function Seen(ks: seq<Cred>, i: nat, w: Readings): nat {
    if ks == [] then 0
    else Seen(ks[..|ks| - 1], i, w) + if Active(ks[|ks| - 1], w(i, |ks| - 1)) then 1 else 0
  }

  function ActiveCount(ks: seq<Cred>, now: Instant): nat {
    Seen(ks, 0, Still(now))
  }

  predicate OriginOk(net: UrlPolicy.Net, p: Peer) {
    p.origin.None? || UrlPolicy.ValidateOrigin(net, p.origin.value.origin, p.allowHttp) == Ok(p.origin.value)
  }

  predicate CredsOk(ks: seq<Cred>) {
    forall j :: 0 <= j < |ks| ==> ValidId(ks[j].id, 128) && |ks[j].hash| == 64
  }

  predicate FieldsOk(net: UrlPolicy.Net, p: Peer) {
    && ValidId(p.node, 120) && Bounded(p.name, 120) && ValidId(p.agent, 128) && OriginOk(net, p)
    && (p.outbound.Some? ==> 1 <= |p.outbound.value| <= 512)
  }

  /** The first error from the `i`-th peer on. */
  function ValidatePeers(net: UrlPolicy.Net, ps: seq<Peer>, i: nat, w: Readings): Option<Error>
    requires i <= |ps|
    decreases |ps| - i
  {
    if i == |ps| then None
    else if !FieldsOk(net, ps[i]) then Some(InvalidPeer)
    else if Seen(ps[i].inbound, i, w) > MAX_ACTIVE then Some(TooManyActive)
    else if !CredsOk(ps[i].inbound) then Some(InvalidPeer)
    else ValidatePeers(net, ps, i + 1, w)
  }

  function ValidateFile(net: UrlPolicy.Net, f: File, w: Readings): Option<Error> {
    if f.version != STORE_VERSION then Some(UnsupportedVersion)
    else if |f.peers| > MAX_PEERS then Some(TooManyPeers)
    else ValidatePeers(net, f.peers, 0, w)
  }

  predicate PeerOk(net: UrlPolicy.Net, p: Peer, i: nat, w: Readings) {
    FieldsOk(net, p) && Seen(p.inbound, i, w) <= MAX_ACTIVE && CredsOk(p.inbound)
  }

  ghost predicate PeersOk(net: UrlPolicy.Net, ps: seq<Peer>, w: Readings) {
    forall i :: 0 <= i < |ps| ==> PeerOk(net, ps[i], i, w)
  }

  ghost predicate FileOk(net: UrlPolicy.Net, f: File, w: Readings) {
    f.version == STORE_VERSION && |f.peers| <= MAX_PEERS && PeersOk(net, f.peers, w)
  }

  lemma {:induction false} ValidatesFrom(net: UrlPolicy.Net, ps: seq<Peer>, i: nat, w: Readings)
    requires i <= |ps|
    ensures ValidatePeers(net, ps, i, w) == None <==> forall m :: i <= m < |ps| ==> PeerOk(net, ps[m], m, w)
    decreases |ps| - i
  {
    if i < |ps| { ValidatesFrom(net, ps, i + 1, w); }
  }

  lemma ValidatesExactly(net: UrlPolicy.Net, ps: seq<Peer>, w: Readings)
    ensures ValidatePeers(net, ps, 0, w) == None <==> PeersOk(net, ps, w)
  {
    ValidatesFrom(net, ps, 0, w);
  }

  // --------------------------------------------------------------- operations

  datatype Op =
    | Issue(peer: string, name: Option<string>, agent: string, days: Option<int>, id: string, hash: Hash)
    | Add(peer: string, display: string, raw: string, agent: string, outbound: Option<seq<bv8>>, allowHttp: bool)
    | Remove(peer: string)
    | Revoke(peer: string, cred: string)

  /** Where `id` stands first, or the length. */
  function Position(ids: seq<string>, id: string): (i: nat)
    ensures i <= |ids| && (i < |ids| ==> ids[i] == id)
    ensures forall k :: 0 <= k < i ==> ids[k] != id
  {
    if ids == [] || ids[0] == id then 0 else 1 + Position(ids[1..], id)
  }

  function IndexOf(ps: seq<Peer>, node: string): (i: nat)
    ensures i <= |ps| && (i < |ps| ==> ps[i].node == node)
    ensures forall k :: 0 <= k < i ==> ps[k].node != node
  {
    var nodes := seq(|ps|, k requires 0 <= k < |ps| => ps[k].node);
    var i := Position(nodes, node);
    assert forall k :: 0 <= k < i ==> nodes[k] != node && ps[k].node == nodes[k];
    i
  }

  function CredIndex(ks: seq<Cred>, id: string): (j: nat)
    ensures j <= |ks| && (j < |ks| ==> ks[j].id == id)
    ensures forall k :: 0 <= k < j ==> ks[k].id != id
  {
    var ids := seq(|ks|, k requires 0 <= k < |ks| => ks[k].id);
    var j := Position(ids, id);
    assert forall k :: 0 <= k < j ==> ids[k] != id && ks[k].id == ids[k];
    j
  }

  function Without(ps: seq<Peer>, node: string): seq<Peer> {
    if ps == [] then [] else (if ps[0].node == node then [] else [ps[0]]) + Without(ps[1..], node)
  }

  /** Writes `p` where its node already is, or at the end. */
  function Put(ps: seq<Peer>, p: Peer): seq<Peer> {
    var i := IndexOf(ps, p.node);
    if i < |ps| then ps[i := p] else ps + [p]
  }

  function DaysOf(op: Op): int
    requires op.Issue?
  {
    if op.days.Some? then op.days.value else DEFAULT_DAYS
  }

  function NewCred(op: Op, now: Instant): Cred
    requires op.Issue?
  {
    Cred(op.id, op.hash, now, now + DaysOf(op) * DAY, None)
  }

  /** What is refused before the file is opened. */
  function Guard(net: UrlPolicy.Net, op: Op): Option<Error> {
    match op
    case Issue(peer, _, agent, _, _, _) =>
      if !ValidId(peer, 120) || !ValidId(agent, 128) then Some(InvalidPeer)
      else if !(1 <= DaysOf(op) <= MAX_DAYS) then Some(InvalidLifetime) else None
    case Add(peer, display, raw, agent, _, allowHttp) =>
      if !ValidId(peer, 120) || !ValidId(agent, 128) || !Bounded(display, 120) then Some(InvalidPeer)
      else
        var o := UrlPolicy.ValidateOrigin(net, raw, allowHttp);
        if o.Err? then Some(Url(o.error)) else None
    case Remove(_) => None
    case Revoke(_, _) => None
  }

  /** The peer an operation on `op.peer` starts from. */
  function Base(op: Op, ps: seq<Peer>, now: Instant): Peer
    requires op.Issue? || op.Add?
  {
    var i := IndexOf(ps, op.peer);
    if i < |ps| then ps[i]
    else if op.Issue? then
      Peer(op.peer, if op.name.Some? then op.name.value else op.peer, None, op.agent, false, None, [], now)
    else Peer(op.peer, op.display, None, op.agent, op.allowHttp, op.outbound, [], now)
  }

  function Edit(net: UrlPolicy.Net, ps: seq<Peer>, op: Op, now: Instant): Result<seq<Peer>, Error>
    requires Guard(net, op).None?
  {
    match op
    case Issue(peer, _, _, _, _, _) =>
      var p := Base(op, ps, now);
      if IndexOf(ps, peer) == |ps| && |ps| >= MAX_PEERS then Err(TooManyPeers)
      else if ActiveCount(p.inbound, now) >= MAX_ACTIVE then Err(TooManyActive)
      else Ok(Put(ps, p.(inbound := p.inbound + [NewCred(op, now)])))
    case Add(peer, display, raw, agent, outbound, allowHttp) =>
      if IndexOf(ps, peer) == |ps| && |ps| >= MAX_PEERS then Err(TooManyPeers)
      else Ok(Put(ps, Base(op, ps, now).(
        name := display, origin := Some(UrlPolicy.ValidateOrigin(net, raw, allowHttp).value), agent := agent,
        allowHttp := allowHttp, outbound := outbound)))
    case Remove(peer) =>
      if |Without(ps, peer)| == |ps| then Err(PeerNotFound) else Ok(Without(ps, peer))
    case Revoke(peer, cred) =>
      var i := IndexOf(ps, peer);
      if i == |ps| then Err(PeerNotFound)
      else
        var j := CredIndex(ps[i].inbound, cred);
        if j == |ps[i].inbound| then Err(CredentialNotFound)
        else Ok(Put(ps, ps[i].(inbound := Revoked(ps[i].inbound, j, now))))
  }

  function Revoked(ks: seq<Cred>, j: nat, now: Instant): seq<Cred>
    requires j < |ks|
  {
    ks[j := ks[j].(revoked := Some(now))]
  }

  // ---------------------------------------------------------------- the store

  /** The clock while the file is checked on loading, edited, and checked again. */
  datatype Clock = Clock(load: Readings, edit: Instant, store: Readings)

  /** How the file system behaves: `WriteFails` is any step up to the rename,
      `ModeFails` the permission change after it. */
  datatype Env = Fine | ReadFails | WriteFails | ModeFails

  function Load(net: UrlPolicy.Net, d: Disk, env: Env, w: Readings): Result<File, Error> {
    if env.ReadFails? then Err(Io)
    else match d
      case Missing => Ok(File(STORE_VERSION, []))
      case UnsafePath => Err(UnsafeFile)
      case Garbled => Err(Json)
      case Parsed(f) => var e := ValidateFile(net, f, w); if e.Some? then Err(e.value) else Ok(f)
  }

  function Planned(net: UrlPolicy.Net, d: Disk, op: Op, clock: Clock, env: Env): Result<File, Error> {
    if Guard(net, op).Some? then Err(Guard(net, op).value)
    else
      var loaded := Load(net, d, env, clock.load);
      if loaded.Err? then Err(loaded.error)
      else
        var edited := Edit(net, loaded.value.peers, op, clock.edit);
        if edited.Err? then Err(edited.error)
        else
          var f := File(loaded.value.version, edited.value);
          var e := ValidateFile(net, f, clock.store);
          if e.Some? then Err(e.value) else Ok(f)
  }

  function NewDisk(net: UrlPolicy.Net, d: Disk, op: Op, clock: Clock, env: Env): Disk {
    var plan := Planned(net, d, op, clock, env);
    if plan.Err? || env.WriteFails? then d else Parsed(plan.value)
  }

  function Answer(net: UrlPolicy.Net, d: Disk, op: Op, clock: Clock, env: Env): Option<Error> {
    var plan := Planned(net, d, op, clock, env);
    if plan.Err? then Some(plan.error) else if env.WriteFails? || env.ModeFails? then Some(Io) else None
  }

  class PeerStore {
    var disk: Disk
    const net: UrlPolicy.Net

    constructor (net: UrlPolicy.Net, disk: Disk)
      ensures this.net == net && this.disk == disk
    {
      this.net, this.disk := net, disk;
    }

    method StoreFile(f: File, env: Env, w: Readings) returns (e: Option<Error>)
      modifies this
      ensures var bad := ValidateFile(net, f, w);
        && e == (if bad.Some? then bad else if env.WriteFails? || env.ModeFails? then Some(Io) else None)
        && disk == (if bad.Some? || env.WriteFails? then old(disk) else Parsed(f))
    {
      e := ValidateFile(net, f, w);
      if e.Some? { return; }
      if env.WriteFails? { return Some(Io); }
      disk := Parsed(f);
      if env.ModeFails? { return Some(Io); }
    }

    method IssueCredential(op: Op, clock: Clock, env: Env) returns (r: Result<Cred, Error>)
      requires op.Issue?
      modifies this
      ensures disk == NewDisk(net, old(disk), op, clock, env)
      ensures var e := Answer(net, old(disk), op, clock, env);
        r == if e.Some? then Err(e.value) else Ok(NewCred(op, clock.edit))
      ensures r.Ok? ==>
        && r.value.id == op.id && r.value.hash == op.hash && r.value.revoked.None? && r.value.created == clock.edit
        && r.value.expires == clock.edit + (if op.days.Some? then op.days.value else 90) * 86_400_000
    {
      if !ValidId(op.peer, 120) || !ValidId(op.agent, 128) { return Err(InvalidPeer); }
      var days := if op.days.Some? then op.days.value else DEFAULT_DAYS;
      if days < 1 || days > MAX_DAYS { return Err(InvalidLifetime); }
      var loaded := Load(net, disk, env, clock.load);
      if loaded.Err? { return Err(loaded.error); }
      var peers := loaded.value.peers;
      IssueInPlace(net, peers, op, clock.edit);
      EditDecides(net, disk, op, clock, env);
      var i := IndexOf(peers, op.peer);
      if i == |peers| {
        if |peers| >= MAX_PEERS { return Err(TooManyPeers); }
        peers := peers + [Base(op, peers, clock.edit)];
      }
      if ActiveCount(peers[i].inbound, clock.edit) >= MAX_ACTIVE { return Err(TooManyActive); }
      var k := Cred(op.id, op.hash, clock.edit, clock.edit + days * DAY, None);
      peers := peers[i := peers[i].(inbound := peers[i].inbound + [k])];
      var e := StoreFile(File(loaded.value.version, peers), env, clock.store);
      r := if e.Some? then Err(e.value) else Ok(k);
    }

    method AddPeer(op: Op, clock: Clock, env: Env) returns (e: Option<Error>)
      requires op.Add?
      modifies this
      ensures disk == NewDisk(net, old(disk), op, clock, env)
      ensures e == Answer(net, old(disk), op, clock, env)
    {
      if !ValidId(op.peer, 120) || !ValidId(op.agent, 128) || !Bounded(op.display, 120) {
        return Some(InvalidPeer);
      }
      var origin := UrlPolicy.ValidateOrigin(net, op.raw, op.allowHttp);
      if origin.Err? { return Some(Url(origin.error)); }
      var loaded := Load(net, disk, env, clock.load);
      if loaded.Err? { return Some(loaded.error); }
      var peers := loaded.value.peers;
      EditDecides(net, disk, op, clock, env);
      var i := IndexOf(peers, op.peer);
      if |peers| >= MAX_PEERS && i == |peers| { return Some(TooManyPeers); }
      if i < |peers| {
        peers := peers[i := peers[i].(name := op.display, origin := Some(origin.value), agent := op.agent,
                                      allowHttp := op.allowHttp, outbound := op.outbound)];
      } else {
        peers := peers + [Peer(op.peer, op.display, Some(origin.value), op.agent, op.allowHttp,
                               op.outbound, [], clock.edit)];
      }
      e := StoreFile(File(loaded.value.version, peers), env, clock.store);
    }

    method RemovePeer(op: Op, clock: Clock, env: Env) returns (e: Option<Error>)
      requires op.Remove?
      modifies this
      ensures disk == NewDisk(net, old(disk), op, clock, env)
      ensures e == Answer(net, old(disk), op, clock, env)
    {
      var loaded := Load(net, disk, env, clock.load);
      if loaded.Err? { return Some(loaded.error); }
      var kept := Without(loaded.value.peers, op.peer);
      if |kept| == |loaded.value.peers| { return Some(PeerNotFound); }
      e := StoreFile(File(loaded.value.version, kept), env, clock.store);
    }

    method RevokeCredential(op: Op, clock: Clock, env: Env) returns (e: Option<Error>)
      requires op.Revoke?
      modifies this
      ensures disk == NewDisk(net, old(disk), op, clock, env)
      ensures e == Answer(net, old(disk), op, clock, env)
    {
      var loaded := Load(net, disk, env, clock.load);
      if loaded.Err? { return Some(loaded.error); }
      var peers := loaded.value.peers;
      var i := IndexOf(peers, op.peer);
      if i == |peers| { return Some(PeerNotFound); }
      var j := CredIndex(peers[i].inbound, op.cred);
      if j == |peers[i].inbound| { return Some(CredentialNotFound); }
      peers := peers[i := peers[i].(inbound := Revoked(peers[i].inbound, j, clock.edit))];
      e := StoreFile(File(loaded.value.version, peers), env, clock.store);
    }
  }

  lemma PutAfterPush(ps: seq<Peer>, p: Peer, q: Peer)
    requires q.node == p.node
    ensures var i := IndexOf(ps, p.node); Put(ps, q) == if i < |ps| then ps[i := q] else (ps + [p])[i := q]
  {}

  /** Once the file is loaded, the edit decides. */
  lemma EditDecides(net: UrlPolicy.Net, d: Disk, op: Op, clock: Clock, env: Env)
    requires Guard(net, op).None? && Load(net, d, env, clock.load).Ok?
    ensures var f := Load(net, d, env, clock.load).value;
      var edited := Edit(net, f.peers, op, clock.edit);
      if edited.Err? then NewDisk(net, d, op, clock, env) == d && Answer(net, d, op, clock, env) == Some(edited.error)
      else
        var f' := File(f.version, edited.value);
        var bad := ValidateFile(net, f', clock.store);
        && Answer(net, d, op, clock, env)
           == (if bad.Some? then bad else if env.WriteFails? || env.ModeFails? then Some(Io) else None)
        && NewDisk(net, d, op, clock, env) == (if bad.Some? || env.WriteFails? then d else Parsed(f'))
  {}

  /** Issuing on a list to which a missing peer has been appended first. */
  lemma IssueInPlace(net: UrlPolicy.Net, ps: seq<Peer>, op: Op, now: Instant)
    requires op.Issue? && Guard(net, op).None?
    ensures var i, p := IndexOf(ps, op.peer), Base(op, ps, now);
      var pushed := if i < |ps| then ps else ps + [p];
      && pushed[i] == p
      && Edit(net, ps, op, now)
         == if i == |ps| && |ps| >= MAX_PEERS then Err(TooManyPeers)
            else if ActiveCount(p.inbound, now) >= MAX_ACTIVE then Err(TooManyActive)
            else Ok(pushed[i := p.(inbound := p.inbound + [NewCred(op, now)])])
  {
    var p := Base(op, ps, now);
    PutAfterPush(ps, p, p.(inbound := p.inbound + [NewCred(op, now)]));
  }

  /** A refused operation leaves the file alone, with one exception: when only the
      permission change after the rename fails, the caller is told of a failure
      and the new file is already in place. */
  lemma FailureLeavesFileExactlyUnless(net: UrlPolicy.Net, d: Disk, op: Op, clock: Clock, env: Env)
    requires Answer(net, d, op, clock, env).Some?
    ensures Planned(net, d, op, clock, env).Err? || !env.ModeFails? ==> NewDisk(net, d, op, clock, env) == d
    ensures Planned(net, d, op, clock, env).Ok? && env.ModeFails? ==>
              && NewDisk(net, d, op, clock, env) == NewDisk(net, d, op, clock, Fine)
              && Answer(net, d, op, clock, Fine) == None
  {}

  // ------------------------------------------------------- edits, peer by peer

  predicate UniqueNodes(ps: seq<Peer>) {
    forall i, j :: 0 <= i < j < |ps| ==> ps[i].node != ps[j].node
  }

  lemma PutKeeps(ps: seq<Peer>, p: Peer)
    requires UniqueNodes(ps)
    ensures UniqueNodes(Put(ps, p))
    ensures forall q :: q in Put(ps, p) <==> q == p || (q in ps && q.node != p.node)
    ensures |Put(ps, p)| == |ps| + (if IndexOf(ps, p.node) == |ps| then 1 else 0)
  {
    var i := IndexOf(ps, p.node);
    var ps' := Put(ps, p);
    assert ps'[i] == p;
    forall q | q in ps && q.node != p.node ensures q in ps' {
      var k :| 0 <= k < |ps| && ps[k] == q;
      assert ps'[k] == q;
    }
  }

  lemma {:induction false} WithoutDrops(ps: seq<Peer>, node: string)
    ensures |Without(ps, node)| <= |ps|
    ensures |Without(ps, node)| == |ps| <==> forall i :: 0 <= i < |ps| ==> ps[i].node != node
  {
    if ps != [] {
      WithoutDrops(ps[1..], node);
      assert forall i :: 0 < i < |ps| ==> ps[i] == ps[1..][i - 1];
    }
  }

  lemma {:induction false} WithoutMembers(ps: seq<Peer>, node: string)
    ensures forall q :: q in Without(ps, node) <==> q in ps && q.node != node
  {
    if ps != [] {
      WithoutMembers(ps[1..], node);
      assert forall q :: q in ps <==> q == ps[0] || q in ps[1..];
    }
  }

  lemma {:induction false} WithoutKeeps(ps: seq<Peer>, node: string)
    requires UniqueNodes(ps)
    ensures UniqueNodes(Without(ps, node)) && |Without(ps, node)| <= |ps|
    ensures forall q :: q in Without(ps, node) <==> q in ps && q.node != node
  {
    WithoutDrops(ps, node);
    WithoutMembers(ps, node);
    if ps != [] {
      WithoutKeeps(ps[1..], node);
      var rest := Without(ps[1..], node);
      forall j | 0 <= j < |rest| ensures rest[j].node != ps[0].node {
        assert rest[j] in rest;
        var k :| 0 <= k < |ps[1..]| && ps[1..][k] == rest[j];
        assert ps[k + 1] == rest[j];
      }
    }
  }

  /** Every one of these readings is taken before any of those. */
  ghost predicate Before(w: Readings, later: Readings) {
    forall i: nat, j: nat, m: nat, n: nat :: w(i, j) <= later(m, n)
  }

  lemma {:induction false} SeenFalls(ks: seq<Cred>, i: nat, w: Readings, m: nat, later: Readings)
    requires Before(w, later)
    ensures Seen(ks, m, later) <= Seen(ks, i, w)
  {
    if ks != [] {
      SeenFalls(ks[..|ks| - 1], i, w, m, later);
      assert w(i, |ks| - 1) <= later(m, |ks| - 1);
    }
  }

  lemma ActiveOneMore(ks: seq<Cred>, k: Cred, now: Instant)
    ensures ActiveCount(ks + [k], now) == ActiveCount(ks, now) + if Active(k, now) then 1 else 0
  {
    assert (ks + [k])[..|ks|] == ks;
  }

  lemma OkLater(net: UrlPolicy.Net, f: File, w: Readings, later: Readings)
    requires FileOk(net, f, w) && Before(w, later)
    ensures FileOk(net, f, later)
  {
    forall i | 0 <= i < |f.peers| ensures PeerOk(net, f.peers[i], i, later) {
      SeenFalls(f.peers[i].inbound, i, w, i, later);
    }
  }

  /** The one peer an operation writes, if it writes one. */
  function Written(net: UrlPolicy.Net, ps: seq<Peer>, op: Op, now: Instant): Peer
    requires Guard(net, op).None? && !op.Remove? && Edit(net, ps, op, now).Ok?
  {
    var p := if op.Revoke? then ps[IndexOf(ps, op.peer)] else Base(op, ps, now);
    match op
    case Issue(_, _, _, _, _, _) => p.(inbound := p.inbound + [NewCred(op, now)])
    case Add(_, display, raw, agent, outbound, allowHttp) =>
      p.(name := display, origin := Some(UrlPolicy.ValidateOrigin(net, raw, allowHttp).value), agent := agent,
         allowHttp := allowHttp, outbound := outbound)
    case Revoke(_, cred) => p.(inbound := Revoked(p.inbound, CredIndex(p.inbound, cred), now))
  }

  lemma EditPeerByPeer(net: UrlPolicy.Net, ps: seq<Peer>, op: Op, now: Instant)
    requires UniqueNodes(ps) && Guard(net, op).None? && Edit(net, ps, op, now).Ok?
    ensures var ps' := Edit(net, ps, op, now).value;
      && UniqueNodes(ps')
      && (|ps| <= MAX_PEERS ==> |ps'| <= MAX_PEERS)
      && (forall q: Peer :: q.node != op.peer ==> (q in ps' <==> q in ps))
      && (forall q: Peer :: q.node == op.peer ==> (q in ps' <==> !op.Remove? && q == Written(net, ps, op, now)))
  {
    if op.Remove? { WithoutKeeps(ps, op.peer); } else { PutKeeps(ps, Written(net, ps, op, now)); }
  }

  // -------------------------------------------------- what is written reloads

  ghost predicate DiskOk(net: UrlPolicy.Net, d: Disk, w: Readings) {
    d.Missing? || (d.Parsed? && UniqueNodes(d.file.peers) && FileOk(net, d.file, w))
  }

  ghost predicate Ordered(c: Clock) {
    Before(c.load, Still(c.edit)) && Before(Still(c.edit), c.store)
  }

  datatype Call = Call(op: Op, clock: Clock, env: Env)

  ghost predicate NextAt(net: UrlPolicy.Net, ds: seq<Disk>, calls: seq<Call>, i: nat)
    requires |ds| == |calls| + 1 && i < |calls|
  {
    ds[i + 1] == NewDisk(net, ds[i], calls[i].op, calls[i].clock, calls[i].env)
  }

  /** Any calls at all, from a missing file. */
  ghost predicate IsRun(net: UrlPolicy.Net, ds: seq<Disk>, calls: seq<Call>) {
    |ds| == |calls| + 1 && ds[0] == Missing && forall i: nat :: i < |calls| ==> NextAt(net, ds, calls, i)
  }

  ghost predicate ClockForward(calls: seq<Call>) {
    && (forall i :: 0 <= i < |calls| ==> Ordered(calls[i].clock))
    && (forall i, j :: 0 <= i < j < |calls| ==> Before(calls[i].clock.store, calls[j].clock.load))
  }

  lemma OrderedIsBefore(c: Clock, w: Readings)
    requires Ordered(c) && Before(c.store, w)
    ensures Before(c.load, w)
  {
    forall i: nat, j: nat, m: nat, n: nat ensures c.load(i, j) <= w(m, n) {
      assert c.load(i, j) <= Still(c.edit)(0, 0) <= c.store(0, 0) <= w(m, n);
    }
  }

  lemma {:induction false} DiskOkAlways(net: UrlPolicy.Net, ds: seq<Disk>, calls: seq<Call>, j: nat, w: Readings)
    requires IsRun(net, ds, calls) && ClockForward(calls) && j < |ds|
    requires forall i :: 0 <= i < j ==> Before(calls[i].clock.store, w)
    ensures DiskOk(net, ds[j], w)
  {
    if j > 0 {
      var c := calls[j - 1];
      DiskOkAlways(net, ds, calls, j - 1, c.clock.load);
      assert NextAt(net, ds, calls, j - 1);
      CallKeepsDisk(net, ds[j - 1], c, w);
    }
  }

  /** One call: a file in order stays in order, on every later reading. */
  lemma CallKeepsDisk(net: UrlPolicy.Net, d: Disk, c: Call, w: Readings)
    requires DiskOk(net, d, c.clock.load) && Ordered(c.clock) && Before(c.clock.store, w)
    ensures DiskOk(net, NewDisk(net, d, c.op, c.clock, c.env), w)
  {
    var plan := Planned(net, d, c.op, c.clock, c.env);
    if plan.Err? || c.env.WriteFails? {
      OrderedIsBefore(c.clock, w);
      if d.Parsed? { OkLater(net, d.file, c.clock.load, w); }
    } else {
      EditPeerByPeer(net, Load(net, d, c.env, c.clock.load).value.peers, c.op, c.clock.edit);
      ValidatesExactly(net, plan.value.peers, c.clock.store);
      OkLater(net, plan.value, c.clock.store, w);
    }
  }

  /** Whatever is called and however the file system fails, the file loads on every
      later reading of the clock, with unique nodes and both caps, which it keeps from
      then on. */
  lemma EveryFileReloads(net: UrlPolicy.Net, ds: seq<Disk>, calls: seq<Call>, j: nat, w: Readings)
    requires IsRun(net, ds, calls) && ClockForward(calls) && j < |ds|
    requires forall i :: 0 <= i < j ==> Before(calls[i].clock.store, w)
    ensures Load(net, ds[j], Fine, w).Ok?
    ensures var f := Load(net, ds[j], Fine, w).value;
      && UniqueNodes(f.peers) && |f.peers| <= 256
      && (forall p :: p in f.peers ==> OriginOk(net, p))
      && forall p, now :: p in f.peers && Before(w, Still(now)) ==> ActiveCount(p.inbound, now) <= 2
  {
    DiskOkAlways(net, ds, calls, j, w);
    if ds[j].Parsed? {
      var ps := ds[j].file.peers;
      ValidatesExactly(net, ps, w);
      forall p, now | p in ps && Before(w, Still(now)) ensures ActiveCount(p.inbound, now) <= MAX_ACTIVE {
        var i :| 0 <= i < |ps| && ps[i] == p;
        assert PeerOk(net, ps[i], i, w);
        SeenFalls(p.inbound, i, w, 0, Still(now));
      }
    }
  }

  // ------------------------------------------------------- when an edit succeeds

  ghost predicate Room(ps: seq<Peer>, node: string) {
    |ps| < MAX_PEERS || exists p :: p in ps && p.node == node
  }

  lemma RoomIs(ps: seq<Peer>, node: string)
    ensures Room(ps, node) <==> |ps| < MAX_PEERS || IndexOf(ps, node) < |ps|
  {
    var i := IndexOf(ps, node);
    if i < |ps| { assert ps[i] in ps; }
  }

  function PeersOn(d: Disk): seq<Peer> {
    if d.Parsed? then d.file.peers else []
  }

  lemma AnswersByValidation(net: UrlPolicy.Net, d: Disk, op: Op, clock: Clock)
    requires DiskOk(net, d, clock.load) && Guard(net, op).None? && Edit(net, PeersOn(d), op, clock.edit).Ok?
    ensures Answer(net, d, op, clock, Fine)
         == ValidateFile(net, File(STORE_VERSION, Edit(net, PeersOn(d), op, clock.edit).value), clock.store)
  {
    ValidatesExactly(net, PeersOn(d), clock.load);
  }

  lemma OthersStayOk(net: UrlPolicy.Net, d: Disk, op: Op, clock: Clock, i: nat)
    requires DiskOk(net, d, clock.load) && Ordered(clock)
    requires Guard(net, op).None? && Edit(net, PeersOn(d), op, clock.edit).Ok?
    requires var ps' := Edit(net, PeersOn(d), op, clock.edit).value; i < |ps'| && ps'[i].node != op.peer
    ensures PeerOk(net, Edit(net, PeersOn(d), op, clock.edit).value[i], i, clock.store)
  {
    var ps, q := PeersOn(d), Edit(net, PeersOn(d), op, clock.edit).value[i];
    EditPeerByPeer(net, ps, op, clock.edit);
    assert q in ps;
    var m :| 0 <= m < |ps| && ps[m] == q;
    assert PeerOk(net, ps[m], m, clock.load);
    SeenFalls(q.inbound, m, clock.load, 0, Still(clock.edit));
    SeenFalls(q.inbound, 0, Still(clock.edit), i, clock.store);
  }

  /** Once an edit goes through, only the peer it wrote can be refused, and not for
      its credentials' number if that was right when it was written. */
  lemma StoreRefusesOnlyWritten(net: UrlPolicy.Net, d: Disk, op: Op, clock: Clock)
    requires DiskOk(net, d, clock.load) && Ordered(clock) && !op.Remove?
    requires Guard(net, op).None? && Edit(net, PeersOn(d), op, clock.edit).Ok?
    requires ActiveCount(Written(net, PeersOn(d), op, clock.edit).inbound, clock.edit) <= MAX_ACTIVE
    ensures var p := Written(net, PeersOn(d), op, clock.edit);
      Answer(net, d, op, clock, Fine).None? <==> FieldsOk(net, p) && CredsOk(p.inbound)
  {
    var p, ps' := Written(net, PeersOn(d), op, clock.edit), Edit(net, PeersOn(d), op, clock.edit).value;
    AnswersByValidation(net, d, op, clock);
    EditPeerByPeer(net, PeersOn(d), op, clock.edit);
    ValidatesExactly(net, ps', clock.store);
    assert p.node == op.peer && p in ps';
    forall i | 0 <= i < |ps'|
      ensures PeerOk(net, ps'[i], i, clock.store) || (ps'[i] == p && !(FieldsOk(net, p) && CredsOk(p.inbound)))
    {
      if ps'[i].node == op.peer {
        assert ps'[i] in ps';
        SeenFalls(p.inbound, 0, Still(clock.edit), i, clock.store);
      } else {
        OthersStayOk(net, d, op, clock, i);
      }
    }
  }

  /** The peer an operation starts from was in order when the file was loaded. */
  lemma BaseOk(net: UrlPolicy.Net, d: Disk, op: Op, clock: Clock)
    requires DiskOk(net, d, clock.load) && Ordered(clock) && (op.Issue? || op.Add?)
    ensures var p, i := Base(op, PeersOn(d), clock.edit), IndexOf(PeersOn(d), op.peer);
      && p.node == op.peer && CredsOk(p.inbound) && ActiveCount(p.inbound, clock.edit) <= MAX_ACTIVE
      && (i < |PeersOn(d)| ==> p in PeersOn(d) && FieldsOk(net, p))
  {
    var p, i := Base(op, PeersOn(d), clock.edit), IndexOf(PeersOn(d), op.peer);
    if i < |PeersOn(d)| {
      assert PeerOk(net, d.file.peers[i], i, clock.load);
      SeenFalls(p.inbound, i, clock.load, 0, Still(clock.edit));
    }
  }

  /** Adding a peer succeeds exactly on well-formed requests with room for them:
      the origin it stores is never refused when the file is checked again. */
  lemma AddSucceedsExactly(net: UrlPolicy.Net, d: Disk, op: Op, clock: Clock)
    requires UrlPolicy.ParsesWhatItPrints(net) && DiskOk(net, d, clock.load) && Ordered(clock) && op.Add?
    ensures Answer(net, d, op, clock, Fine).None? <==>
      && ValidId(op.peer, 120) && ValidId(op.agent, 128) && Bounded(op.display, 120)
      && UrlPolicy.ValidateOrigin(net, op.raw, op.allowHttp).Ok?
      && (op.outbound.Some? ==> 1 <= |op.outbound.value| <= 512)
      && Room(PeersOn(d), op.peer)
  {
    RoomIs(PeersOn(d), op.peer);
    if Guard(net, op).Some? || Edit(net, PeersOn(d), op, clock.edit).Err? {
      ValidatesExactly(net, PeersOn(d), clock.load);
    } else {
      BaseOk(net, d, op, clock);
      StoreRefusesOnlyWritten(net, d, op, clock);
      UrlPolicy.OriginRevalidatesToItself(net, op.raw, op.allowHttp);
    }
  }

  lemma IssueEditsExactly(net: UrlPolicy.Net, ps: seq<Peer>, op: Op, now: Instant)
    requires op.Issue? && UniqueNodes(ps)
    ensures Guard(net, op).None? && Edit(net, ps, op, now).Ok? <==>
      && ValidId(op.peer, 120) && ValidId(op.agent, 128) && (op.days.Some? ==> 1 <= op.days.value <= MAX_DAYS)
      && Room(ps, op.peer)
      && (forall p :: p in ps && p.node == op.peer ==> ActiveCount(p.inbound, now) < MAX_ACTIVE)
  {
    RoomIs(ps, op.peer);
    var i := IndexOf(ps, op.peer);
    if i < |ps| {
      assert ps[i] in ps;
      assert forall q :: q in ps && q.node == op.peer ==> q == ps[i];
    }
  }

  lemma IssuedPeerOk(net: UrlPolicy.Net, d: Disk, op: Op, clock: Clock)
    requires DiskOk(net, d, clock.load) && Ordered(clock) && op.Issue?
    requires ValidId(op.id, 128) && |op.hash| == 64
    requires Guard(net, op).None? && Edit(net, PeersOn(d), op, clock.edit).Ok?
    ensures var p := Written(net, PeersOn(d), op, clock.edit);
      && ActiveCount(p.inbound, clock.edit) <= MAX_ACTIVE
      && (FieldsOk(net, p) && CredsOk(p.inbound) <==>
            (op.name.Some? && IndexOf(PeersOn(d), op.peer) == |PeersOn(d)| ==> Bounded(op.name.value, 120)))
  {
    BaseOk(net, d, op, clock);
    ActiveOneMore(Base(op, PeersOn(d), clock.edit).inbound, NewCred(op, clock.edit), clock.edit);
  }

  /** Issuing succeeds exactly with well-formed names, a lifetime of 1 to 365 days,
      room for the peer and fewer than two credentials still active. */
  lemma IssueSucceedsExactly(net: UrlPolicy.Net, d: Disk, op: Op, clock: Clock)
    requires DiskOk(net, d, clock.load) && Ordered(clock) && op.Issue?
    requires ValidId(op.id, 128) && |op.hash| == 64
    ensures Answer(net, d, op, clock, Fine).None? <==>
      && ValidId(op.peer, 120) && ValidId(op.agent, 128) && (op.days.Some? ==> 1 <= op.days.value <= MAX_DAYS)
      && Room(PeersOn(d), op.peer)
      && (forall p :: p in PeersOn(d) && p.node == op.peer ==> ActiveCount(p.inbound, clock.edit) < MAX_ACTIVE)
      && (op.name.Some? && (forall p :: p in PeersOn(d) ==> p.node != op.peer) ==> Bounded(op.name.value, 120))
  {
    var ps := PeersOn(d);
    var i := IndexOf(ps, op.peer);
    assert i < |ps| ==> ps[i] in ps;
    IssueEditsExactly(net, ps, op, clock.edit);
    if Guard(net, op).Some? || Edit(net, ps, op, clock.edit).Err? {
      ValidatesExactly(net, PeersOn(d), clock.load);
    } else {
      IssuedPeerOk(net, d, op, clock);
      StoreRefusesOnlyWritten(net, d, op, clock);
    }
  }

  // ------------------------------------------------------- a clock set back

  /** In order, whatever number of credentials is active. */
  ghost predicate SoundPeers(net: UrlPolicy.Net, ps: seq<Peer>) {
    forall i :: 0 <= i < |ps| ==> FieldsOk(net, ps[i]) && CredsOk(ps[i].inbound)
  }

  /** No peer shows more active credentials than it may have. */
  ghost predicate WithinCap(ps: seq<Peer>, w: Readings) {
    forall i :: 0 <= i < |ps| ==> Seen(ps[i].inbound, i, w) <= MAX_ACTIVE
  }

  lemma {:induction false} RefusedForTheCapOnly(net: UrlPolicy.Net, ps: seq<Peer>, i: nat, w: Readings)
    requires SoundPeers(net, ps) && i <= |ps|
    ensures ValidatePeers(net, ps, i, w)
         == if forall m :: i <= m < |ps| ==> Seen(ps[m].inbound, m, w) <= MAX_ACTIVE then None else Some(TooManyActive)
    decreases |ps| - i
  {
    if i < |ps| { RefusedForTheCapOnly(net, ps, i + 1, w); }
  }

  lemma {:induction false} SoundApartFromTheClock(net: UrlPolicy.Net, ds: seq<Disk>, calls: seq<Call>, j: nat)
    requires IsRun(net, ds, calls) && j < |ds|
    ensures ds[j].Missing? || (ds[j].Parsed? && ds[j].file.version == STORE_VERSION && |ds[j].file.peers| <= MAX_PEERS)
    ensures SoundPeers(net, PeersOn(ds[j]))
  {
    if j > 0 {
      var c, ps := calls[j - 1], PeersOn(ds[j]);
      SoundApartFromTheClock(net, ds, calls, j - 1);
      assert NextAt(net, ds, calls, j - 1);
      ValidatesExactly(net, ps, c.clock.store);
      if ds[j] != ds[j - 1] {
        forall i | 0 <= i < |ps| ensures FieldsOk(net, ps[i]) && CredsOk(ps[i].inbound) {
          assert PeerOk(net, ps[i], i, c.clock.store);
        }
      }
    }
  }

  /** On any clock, a file that was written loads exactly when no peer shows more
      than two active credentials on these readings; else it is refused for that. */
  lemma LoadsExactlyWithinCap(net: UrlPolicy.Net, ds: seq<Disk>, calls: seq<Call>, j: nat, w: Readings)
    requires IsRun(net, ds, calls) && j < |ds|
    ensures Load(net, ds[j], Fine, w)
         == if WithinCap(PeersOn(ds[j]), w) then Ok(File(STORE_VERSION, PeersOn(ds[j]))) else Err(TooManyActive)
  {
    SoundApartFromTheClock(net, ds, calls, j);
    RefusedForTheCapOnly(net, PeersOn(ds[j]), 0, w);
  }

  /** The `n`-th credential of a peer that rotates, issued for one day. */
  function Dated(n: nat, at: Instant): Cred
    requires n < 4
  {
    Cred(seq(n + 1, _ => 'k'), seq(64, _ => n as bv8), at, at + DAY, None)
  }

  function Rotation(k: Cred): Call {
    Call(Issue("p", None, "a", Some(1), k.id, k.hash), Clock(Still(k.created), k.created, Still(k.created)), Fine)
  }

  function Rotating(ks: seq<Cred>): Peer {
    Peer("p", "p", None, "a", false, None, ks, 0)
  }

  function Shelf(ks: seq<Cred>): Disk {
    if ks == [] then Missing else Parsed(File(STORE_VERSION, [Rotating(ks)]))
  }

  /** An edit that is answered without an error is what is written. */
  lemma WritesEdit(net: UrlPolicy.Net, d: Disk, op: Op, clock: Clock)
    requires DiskOk(net, d, clock.load) && Guard(net, op).None? && Edit(net, PeersOn(d), op, clock.edit).Ok?
    requires Answer(net, d, op, clock, Fine).None?
    ensures var f := File(STORE_VERSION, Edit(net, PeersOn(d), op, clock.edit).value);
      NewDisk(net, d, op, clock, Fine) == Parsed(f) && ValidateFile(net, f, clock.store) == None
  {
    AnswersByValidation(net, d, op, clock);
    ValidatesExactly(net, PeersOn(d), clock.load);
  }

  lemma RotationEdits(net: UrlPolicy.Net, ks: seq<Cred>, n: nat, at: Instant)
    requires n < 4 && ActiveCount(ks, at) < MAX_ACTIVE && (ks == [] ==> at == 0)
    ensures var op := Rotation(Dated(n, at)).op;
      Guard(net, op).None? && Edit(net, PeersOn(Shelf(ks)), op, at) == Ok(PeersOn(Shelf(ks + [Dated(n, at)])))
  {
    var op, ps := Rotation(Dated(n, at)).op, PeersOn(Shelf(ks));
    assert NewCred(op, at) == Dated(n, at);
    assert ps == if ks == [] then [] else [Rotating(ks)];
    assert IndexOf(ps, "p") == 0;
    assert Base(op, ps, at) == Rotating(ks);
    assert Put(ps, Rotating(ks + [Dated(n, at)])) == [Rotating(ks + [Dated(n, at)])];
  }

  lemma RotationStep(net: UrlPolicy.Net, ks: seq<Cred>, n: nat, at: Instant)
    requires n < 4 && DiskOk(net, Shelf(ks), Still(at))
    requires ActiveCount(ks, at) < MAX_ACTIVE && (ks == [] ==> at == 0)
    ensures var c, d := Rotation(Dated(n, at)), Shelf(ks + [Dated(n, at)]);
      NewDisk(net, Shelf(ks), c.op, c.clock, c.env) == d && DiskOk(net, d, Still(at))
  {
    var c := Rotation(Dated(n, at));
    IssueSucceedsExactly(net, Shelf(ks), c.op, c.clock);
    RotationEdits(net, ks, n, at);
    WritesEdit(net, Shelf(ks), c.op, c.clock);
    ValidatesExactly(net, PeersOn(Shelf(ks + [Dated(n, at)])), Still(at));
  }

  lemma CountOfFour(a: Cred, b: Cred, c: Cred, d: Cred, now: Instant)
    ensures ActiveCount([a], now) == if Active(a, now) then 1 else 0
    ensures ActiveCount([a, b], now) == ActiveCount([a], now) + if Active(b, now) then 1 else 0
    ensures ActiveCount([a, b, c], now) == ActiveCount([a, b], now) + if Active(c, now) then 1 else 0
    ensures ActiveCount([a, b, c, d], now) == ActiveCount([a, b, c], now) + if Active(d, now) then 1 else 0
  {
    ActiveOneMore([], a, now);
    ActiveOneMore([a], b, now);
    ActiveOneMore([a, b], c, now);
    ActiveOneMore([a, b, c], d, now);
    assert [] + [a] == [a] && [a] + [b] == [a, b] && [a, b] + [c] == [a, b, c] && [a, b, c] + [d] == [a, b, c, d];
  }

  lemma ExtendRun(net: UrlPolicy.Net, ds: seq<Disk>, calls: seq<Call>, c: Call, d: Disk)
    requires IsRun(net, ds, calls) && NewDisk(net, ds[|calls|], c.op, c.clock, c.env) == d
    ensures IsRun(net, ds + [d], calls + [c])
  {
    forall i: nat | i < |calls| + 1 ensures NextAt(net, ds + [d], calls + [c], i) {
      if i < |calls| { assert NextAt(net, ds, calls, i); }
    }
  }

  /** A run that left the shelf with `ks`, and one rotation more. */
  lemma RotateOn(net: UrlPolicy.Net, ds0: seq<Disk>, calls0: seq<Call>, ks: seq<Cred>, n: nat, at: Instant)
    returns (ds: seq<Disk>, calls: seq<Call>)
    requires n < 4 && IsRun(net, ds0, calls0) && ds0[|calls0|] == Shelf(ks) && DiskOk(net, Shelf(ks), Still(at))
    requires ActiveCount(ks, at) < MAX_ACTIVE && (ks == [] ==> at == 0)
    ensures var d := Shelf(ks + [Dated(n, at)]);
      && IsRun(net, ds, calls) && calls == calls0 + [Rotation(Dated(n, at))] && ds == ds0 + [d]
      && DiskOk(net, d, Still(at))
  {
    RotationStep(net, ks, n, at);
    ExtendRun(net, ds0, calls0, Rotation(Dated(n, at)), Shelf(ks + [Dated(n, at)]));
    ds, calls := ds0 + [Shelf(ks + [Dated(n, at)])], calls0 + [Rotation(Dated(n, at))];
  }

  predicate Rotated(a: Cred, b: Cred, c: Cred, d: Cred) {
    a == Dated(0, 0) && b == Dated(1, 0) && c == Dated(2, DAY) && d == Dated(3, DAY)
  }

  lemma RotationsRun(net: UrlPolicy.Net, a: Cred, b: Cred, c: Cred, d: Cred) returns (ds: seq<Disk>, calls: seq<Call>)
    requires Rotated(a, b, c, d)
    ensures IsRun(net, ds, calls) && calls == [Rotation(a), Rotation(b), Rotation(c), Rotation(d)]
    ensures ds == [Missing, Shelf([a]), Shelf([a, b]), Shelf([a, b, c]), Shelf([a, b, c, d])]
  {
    CountOfFour(a, b, c, d, 0);
    CountOfFour(a, b, c, d, DAY);
    assert [] + [a] == [a] && [a] + [b] == [a, b] && [a, b] + [c] == [a, b, c] && [a, b, c] + [d] == [a, b, c, d];
    ds, calls := [Missing], [];
    ds, calls := RotateOn(net, ds, calls, [], 0, 0);
    ds, calls := RotateOn(net, ds, calls, [a], 1, 0);
    OkLater(net, Shelf([a, b]).file, Still(0), Still(DAY));
    ds, calls := RotateOn(net, ds, calls, [a, b], 2, DAY);
    ds, calls := RotateOn(net, ds, calls, [a, b, c], 3, DAY);
  }

  lemma RotationsForward(a: Cred, b: Cred, c: Cred, d: Cred)
    requires Rotated(a, b, c, d)
    ensures ClockForward([Rotation(a), Rotation(b), Rotation(c), Rotation(d)])
  {
    var ks, calls := [a, b, c, d], [Rotation(a), Rotation(b), Rotation(c), Rotation(d)];
    assert forall i :: 0 <= i < 4 ==> calls[i] == Rotation(ks[i]);
    forall i, j | 0 <= i <= j < 4 ensures Before(Still(ks[i].created), Still(ks[j].created)) {
      StillBefore(ks[i].created, ks[j].created);
    }
  }

  lemma StillBefore(now: Instant, later: Instant)
    requires now <= later
    ensures Before(Still(now), Still(later))
  {}

  lemma FourAreTooMany(net: UrlPolicy.Net, a: Cred, b: Cred, c: Cred, d: Cred)
    requires Rotated(a, b, c, d)
    ensures Load(net, Shelf([a, b, c, d]), Fine, Still(0)) == Err(TooManyActive)
  {
    CountOfFour(a, b, c, d, 0);
    assert FieldsOk(net, Rotating([a, b, c, d]));
  }

  /** Two credentials, and two more a day later when those have run out: on a clock
      set back to the start all four count, and the file no longer loads. */
  lemma ClockSetBackLocksFile(net: UrlPolicy.Net)
    ensures exists ds, calls :: IsRun(net, ds, calls) && ClockForward(calls) && |calls| == 4
              && Load(net, ds[4], Fine, Still(0)) == Err(TooManyActive)
  {
    var a, b, c, d := Dated(0, 0), Dated(1, 0), Dated(2, DAY), Dated(3, DAY);
    var ds, calls := RotationsRun(net, a, b, c, d);
    RotationsForward(a, b, c, d);
    FourAreTooMany(net, a, b, c, d);
  }
}
