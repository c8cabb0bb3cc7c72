/** Repair of a knowledge graph: relationships outside the vocabulary go, and so do
    `unknown` entities that some relationship mentions, with every relationship that
    does. */
module GraphRepair {
  import opened Wrappers
  import opened Ascii

  datatype Id = Id(text: string)

  /** A type column may be NULL. */
  datatype Entity = Entity(id: Id, kind: Option<string>)
  datatype Relationship = Relationship(source: Id, target: Id, kind: Option<string>)

  datatype Graph = Graph(entities: seq<Entity>, relationships: seq<Relationship>)

  const BUILTIN_TYPES: set<string> := {
    "works_for", "located_in", "related_to", "created", "uses", "part_of", "mentions", "before", "after",
    "during", "concurrent_with", "succeeded_by", "preceded_by", "president_of", "founder_of", "member_of",
    "author_of", "held_role", "employed_by", "held_at", "born_in", "died_in", "caused", "enabled", "prevented",
    "triggered_by", "contains", "instance_of", "subtype_of" }

  // ------------------------------------------------------------------- queries

  function TrimLeft(s: string): string {
    if s != "" && s[0] == ' ' then TrimLeft(s[1..]) else s
  }

  function TrimRight(s: string): string {
    if s != "" && s[|s| - 1] == ' ' then TrimRight(s[..|s| - 1]) else s
  }

  predicate IsUnknown(e: Entity) {
    e.kind.Some? && Lower(TrimLeft(TrimRight(e.kind.value))) == "unknown"
  }

  predicate Touches(r: Relationship, ids: set<Id>) {
    r.source in ids || r.target in ids
  }

  /** The WHERE clauses on relationships; a NULL type satisfies neither IN nor NOT IN. */
  datatype Clause =
    | Unsupported(vocabulary: set<string>)
    | Stub(ids: set<Id>, vocabulary: set<string>)
    | Edge(ids: set<Id>)

  predicate Selects(c: Clause, r: Relationship) {
    match c
    case Unsupported(vocabulary) => r.kind.Some? && r.kind.value !in vocabulary
    case Stub(ids, vocabulary) => Touches(r, ids) && r.kind.Some? && r.kind.value in vocabulary
    case Edge(ids) => Touches(r, ids)
  }

  function Selected(rs: seq<Relationship>, c: Clause): nat {
    if rs == [] then 0 else Selected(rs[..|rs| - 1], c) + if Selects(c, rs[|rs| - 1]) then 1 else 0
  }

  function Rest(rs: seq<Relationship>, c: Clause): seq<Relationship> {
    if rs == [] then []
    else Rest(rs[..|rs| - 1], c) + if Selects(c, rs[|rs| - 1]) then [] else [rs[|rs| - 1]]
  }

  function UnknownIds(es: seq<Entity>): set<Id> {
    set e | e in es && IsUnknown(e) :: e.id
  }

  /** Unknown entities that some relationship mentions. */
  function StubIds(g: Graph): set<Id> {
    set e | e in g.entities && IsUnknown(e) && (exists r :: r in g.relationships && Touches(r, {e.id})) :: e.id
  }

  predicate Doomed(e: Entity, stubs: set<Id>) {
    e.id in stubs && IsUnknown(e)
  }

  function Known(es: seq<Entity>, stubs: set<Id>): seq<Entity> {
    if es == [] then [] else Known(es[..|es| - 1], stubs) + if Doomed(es[|es| - 1], stubs) then [] else [es[|es| - 1]]
  }

  function CountUnknown(es: seq<Entity>): nat {
    if es == [] then 0 else CountUnknown(es[..|es| - 1]) + if IsUnknown(es[|es| - 1]) then 1 else 0
  }

  function Repaired(g: Graph, vocabulary: set<string>): Graph {
    Graph(Known(g.entities, StubIds(g)), Rest(Rest(g.relationships, Unsupported(vocabulary)), Edge(StubIds(g))))
  }

  datatype Report = Report(
    applied: bool, unknownEntities: nat, unsupportedRelationships: nat, stubRelationships: nat,
    deletedEntities: nat, deletedRelationships: nat)

  datatype Failure = MissingTables | BackupFailed | IntegrityCheckFailed

  // -------------------------------------------------------------- the database

  class Database {
    var entities: seq<Entity>
    var relationships: seq<Relationship>

    constructor (g: Graph)
      ensures Value() == g
    {
      entities, relationships := g.entities, g.relationships;
    }

    function Value(): Graph
      reads this
    {
      Graph(entities, relationships)
    }

    method CountUnknownEntities() returns (n: nat)
      ensures n == CountUnknown(entities)
    {
      n := 0;
      for i := 0 to |entities|
        invariant n == CountUnknown(entities[..i])
      {
        assert entities[..i + 1][..i] == entities[..i];
        if IsUnknown(entities[i]) { n := n + 1; }
      }
      assert entities[..|entities|] == entities;
    }

    method CountRelationships(c: Clause) returns (n: nat)
      ensures n == Selected(relationships, c)
    {
      n := 0;
      for i := 0 to |relationships|
        invariant n == Selected(relationships[..i], c)
      {
        assert relationships[..i + 1][..i] == relationships[..i];
        if Selects(c, relationships[i]) { n := n + 1; }
      }
      assert relationships[..|relationships|] == relationships;
    }

    method RelationshipUnknownEntityIds() returns (stubs: set<Id>)
      ensures stubs == StubIds(Value())
    {
      stubs := {};
      for i := 0 to |entities|
        invariant stubs == StubIds(Graph(entities[..i], relationships))
      {
        var e := entities[i];
        assert forall x :: x in entities[..i + 1] <==> x in entities[..i] || x == e;
        if IsUnknown(e) {
          var mentioned := false;
          for k := 0 to |relationships|
            invariant mentioned <==> exists j :: 0 <= j < k && Touches(relationships[j], {e.id})
          {
            mentioned := mentioned || Touches(relationships[k], {e.id});
          }
          if mentioned { stubs := stubs + {e.id}; }
        }
      }
      assert entities[..|entities|] == entities;
    }

    method DeleteRelationships(c: Clause) returns (n: nat)
      modifies this`relationships
      ensures relationships == Rest(old(relationships), c) && n == Selected(old(relationships), c)
    {
      var kept: seq<Relationship> := [];
      n := 0;
      for i := 0 to |relationships|
        invariant relationships == old(relationships)
        invariant kept == Rest(relationships[..i], c) && n == Selected(relationships[..i], c)
      {
        assert relationships[..i + 1][..i] == relationships[..i];
        if Selects(c, relationships[i]) { n := n + 1; } else { kept := kept + [relationships[i]]; }
      }
      assert relationships[..|relationships|] == relationships;
      relationships := kept;
    }

    method DeleteUnknownEntities(stubs: set<Id>) returns (n: nat)
      modifies this`entities
      ensures entities == Known(old(entities), stubs) && n == |old(entities)| - |entities|
    {
      var kept: seq<Entity> := [];
      n := 0;
      for i := 0 to |entities|
        invariant entities == old(entities)
        invariant kept == Known(entities[..i], stubs) && n == i - |kept|
      {
        assert entities[..i + 1][..i] == entities[..i];
        if Doomed(entities[i], stubs) { n := n + 1; } else { kept := kept + [entities[i]]; }
      }
      assert entities[..|entities|] == entities;
      entities := kept;
    }

    /** A dry run changes nothing; so does a repair that fails, whose transaction is
        rolled back; a repair that succeeds leaves the repaired graph. */
    method RepairDatabase(apply: bool, tablesPresent: bool, backupMade: bool, integrityOk: bool)
      returns (r: Result<Report, Failure>)
      modifies this
      ensures r.Ok? <==> tablesPresent && (apply ==> backupMade && integrityOk)
      ensures Value() == if r.Ok? && apply then Repaired(old(Value()), BUILTIN_TYPES) else old(Value())
      ensures r.Ok? ==>
        && r.value.applied == apply
        && r.value.unknownEntities == CountUnknown(old(entities))
        && r.value.unsupportedRelationships == Selected(old(relationships), Unsupported(BUILTIN_TYPES))
        && r.value.stubRelationships == Selected(old(relationships), Stub(UnknownIds(old(entities)), BUILTIN_TYPES))
        && r.value.deletedEntities == |old(entities)| - |entities|
        && r.value.deletedRelationships == |old(relationships)| - |relationships|
    {
      if !tablesPresent { return Err(MissingTables); }
      var unknown := CountUnknownEntities();
      var unsupported := CountRelationships(Unsupported(BUILTIN_TYPES));
      var stub := CountRelationships(Stub(UnknownIds(entities), BUILTIN_TYPES));
      if !apply { return Ok(Report(false, unknown, unsupported, stub, 0, 0)); }
      if !backupMade { return Err(BackupFailed); }
      var before := Value();
      var stubs := RelationshipUnknownEntityIds();
      RestCounts(relationships, Unsupported(BUILTIN_TYPES));
      var deletedUnsupported := DeleteRelationships(Unsupported(BUILTIN_TYPES));
      RestCounts(relationships, Edge(stubs));
      var deletedEdges := DeleteRelationships(Edge(stubs));
      var deletedEntities := DeleteUnknownEntities(stubs);
      if !integrityOk {
        entities, relationships := before.entities, before.relationships;
        return Err(IntegrityCheckFailed);
      }
      return Ok(Report(true, unknown, unsupported, stub, deletedEntities, deletedUnsupported + deletedEdges));
    }
  }

  lemma {:induction false} RestCounts(rs: seq<Relationship>, c: Clause)
    ensures |Rest(rs, c)| + Selected(rs, c) == |rs|
  {
    if rs != [] { RestCounts(rs[..|rs| - 1], c); }
  }

  // ------------------------------------------------------- what the queries mean

  predicate Blank(s: string) {
    forall i :: 0 <= i < |s| ==> s[i] == ' '
  }

  /** The seven letters, each in either case. */
  predicate Spells(w: string) {
    |w| == 7 && forall i :: 0 <= i < 7 ==> w[i] == "unknown"[i] || w[i] == "UNKNOWN"[i]
  }

  lemma {:induction false} TrimmedLeft(s: string) returns (a: string)
    ensures Blank(a) && s == a + TrimLeft(s)
  {
    a := "";
    if s != "" && s[0] == ' ' {
      var rest := TrimmedLeft(s[1..]);
      a := [' '] + rest;
    }
  }

  lemma {:induction false} TrimmedRight(s: string) returns (b: string)
    ensures Blank(b) && s == TrimRight(s) + b
  {
    b := "";
    if s != "" && s[|s| - 1] == ' ' {
      var rest := TrimmedRight(s[..|s| - 1]);
      b := rest + [' '];
    }
  }

  lemma {:induction false} BlanksGo(a: string, w: string, b: string)
    requires Blank(a) && Blank(b) && (w != "" ==> w[0] != ' ' && w[|w| - 1] != ' ')
    ensures TrimLeft(TrimRight(a + w + b)) == w || w == ""
    decreases |a| + |b|
  {
    var s := a + w + b;
    if b != "" {
      assert s[..|s| - 1] == a + w + b[..|b| - 1];
      BlanksGo(a, w, b[..|b| - 1]);
    } else if w != "" {
      assert s == a + w;
      assert TrimRight(s) == s;
      if a != "" {
        assert s[1..] == a[1..] + w + b;
        BlanksGo(a[1..], w, b);
        assert s[1..] == a[1..] + w;
      } else {
        assert s == w;
      }
    }
  }

  lemma LowerSpells(w: string)
    ensures Lower(w) == "unknown" <==> Spells(w)
  {
    if |w| == 7 {
      assert forall i :: 0 <= i < 7 ==> Lower(w)[i] == LowerChar(w[i]);
      assert Spells(w) <==> forall i :: 0 <= i < 7 ==> LowerChar(w[i]) == "unknown"[i];
    }
  }

  lemma SpelledIsUnknown(a: string, w: string, b: string)
    requires Blank(a) && Spells(w) && Blank(b)
    ensures Lower(TrimLeft(TrimRight(a + w + b))) == "unknown"
  {
    assert w[0] != ' ' && w[6] != ' ';
    BlanksGo(a, w, b);
    LowerSpells(w);
  }

  /** An entity is unknown exactly when its type is that word, in letters of either
      case, with any number of blanks around it. */
  lemma UnknownSays(e: Entity)
    ensures IsUnknown(e) <==>
      e.kind.Some? && exists a, w, b :: Blank(a) && Spells(w) && Blank(b) && e.kind.value == a + w + b
  {
    if IsUnknown(e) {
      var b := TrimmedRight(e.kind.value);
      var a := TrimmedLeft(TrimRight(e.kind.value));
      LowerSpells(TrimLeft(TrimRight(e.kind.value)));
    }
    forall a, w, b | Blank(a) && Spells(w) && Blank(b) && e.kind == Some(a + w + b) ensures IsUnknown(e) {
      SpelledIsUnknown(a, w, b);
    }
  }

  ghost function Hits(rs: seq<Relationship>, c: Clause): set<nat> {
    set i: nat | i < |rs| && Selects(c, rs[i])
  }

  lemma {:induction false} SelectedIsCount(rs: seq<Relationship>, c: Clause)
    ensures Selected(rs, c) == |Hits(rs, c)|
  {
    if rs != [] {
      var n := |rs| - 1;
      SelectedIsCount(rs[..n], c);
      assert n !in Hits(rs[..n], c);
      assert Hits(rs, c) == Hits(rs[..n], c) + if Selects(c, rs[n]) then {n} else {};
    }
  }

  lemma {:induction false} UnknownIsCount(es: seq<Entity>)
    ensures CountUnknown(es) == |set i | 0 <= i < |es| && IsUnknown(es[i])|
  {
    if es != [] {
      var n := |es| - 1;
      UnknownIsCount(es[..n]);
      var fewer := set i | 0 <= i < n && IsUnknown(es[..n][i]);
      assert (set i | 0 <= i < |es| && IsUnknown(es[i])) == if IsUnknown(es[n]) then fewer + {n} else fewer;
    }
  }

  /** What the three numbers of a report count. */
  lemma CountsSay(g: Graph, ids: set<Id>, vocabulary: set<string>)
    ensures CountUnknown(g.entities) == |set i | 0 <= i < |g.entities| && IsUnknown(g.entities[i])|
    ensures var rs := g.relationships;
      Selected(rs, Unsupported(vocabulary))
      == |set i | 0 <= i < |rs| && rs[i].kind.Some? && rs[i].kind.value !in vocabulary|
    ensures var rs := g.relationships;
      Selected(rs, Stub(ids, vocabulary))
      == |set i | 0 <= i < |rs| && rs[i].kind.Some? && rs[i].kind.value in vocabulary
                  && (rs[i].source in ids || rs[i].target in ids)|
  {
    var rs := g.relationships;
    UnknownIsCount(g.entities);
    SelectedIsCount(rs, Unsupported(vocabulary));
    SelectedIsCount(rs, Stub(ids, vocabulary));
    assert (set i | 0 <= i < |rs| && rs[i].kind.Some? && rs[i].kind.value !in vocabulary)
           == Hits(rs, Unsupported(vocabulary));
    assert (set i | 0 <= i < |rs| && rs[i].kind.Some? && rs[i].kind.value in vocabulary
                  && (rs[i].source in ids || rs[i].target in ids))
           == Hits(rs, Stub(ids, vocabulary));
  }

  // ------------------------------------------------------------ what it deletes

  lemma {:induction false} RestKeepsExactly(rs: seq<Relationship>, c: Clause)
    ensures forall r :: r in Rest(rs, c) <==> r in rs && !Selects(c, r)
  {
    if rs != [] {
      RestKeepsExactly(rs[..|rs| - 1], c);
      assert rs == rs[..|rs| - 1] + [rs[|rs| - 1]];
    }
  }

  lemma {:induction false} KnownKeepsExactly(es: seq<Entity>, stubs: set<Id>)
    ensures forall e :: e in Known(es, stubs) <==> e in es && !Doomed(e, stubs)
  {
    if es != [] {
      KnownKeepsExactly(es[..|es| - 1], stubs);
      assert es == es[..|es| - 1] + [es[|es| - 1]];
    }
  }

  /** An edge to an unknown entity makes that entity a stub. */
  lemma EdgesFindStubs(g: Graph, r: Relationship)
    requires r in g.relationships
    ensures Touches(r, StubIds(g)) <==> Touches(r, UnknownIds(g.entities))
  {
    forall e | e in g.entities && IsUnknown(e) && Touches(r, {e.id}) ensures e.id in StubIds(g) {}
  }

  ghost predicate Mentioned(g: Graph, e: Entity) {
    exists r :: r in g.relationships && (r.source == e.id || r.target == e.id)
  }

  ghost predicate UniqueIds(es: seq<Entity>) {
    forall a, b :: a in es && b in es && a.id == b.id ==> a == b
  }

  /** An entity survives exactly when it is not unknown, or no relationship of the
      original graph mentions it. */
  lemma EntitySurvivesExactly(g: Graph, vocabulary: set<string>, e: Entity)
    requires UniqueIds(g.entities) && e in g.entities
    ensures e in Repaired(g, vocabulary).entities <==> !IsUnknown(e) || !Mentioned(g, e)
  {
    KnownKeepsExactly(g.entities, StubIds(g));
  }

  /** A relationship survives exactly when its type is in the vocabulary, or NULL,
      and neither end is an unknown entity. */
  lemma RelationshipSurvivesExactly(g: Graph, vocabulary: set<string>, r: Relationship)
    requires r in g.relationships
    ensures r in Repaired(g, vocabulary).relationships
            <==> (r.kind.Some? ==> r.kind.value in vocabulary)
                 && forall e :: e in g.entities && (e.id == r.source || e.id == r.target) ==> !IsUnknown(e)
  {
    RestKeepsExactly(g.relationships, Unsupported(vocabulary));
    RestKeepsExactly(Rest(g.relationships, Unsupported(vocabulary)), Edge(StubIds(g)));
    EdgesFindStubs(g, r);
  }

  function Ids(es: seq<Entity>): set<Id> {
    set e | e in es :: e.id
  }

  /** Nothing that survives loses an end. */
  lemma ReferencesSurvive(g: Graph, vocabulary: set<string>, r: Relationship, end: Id)
    requires UniqueIds(g.entities) && r in Repaired(g, vocabulary).relationships && (end == r.source || end == r.target)
    ensures r in g.relationships && (end in Ids(Repaired(g, vocabulary).entities) <==> end in Ids(g.entities))
  {
    var stubs := StubIds(g);
    RestKeepsExactly(g.relationships, Unsupported(vocabulary));
    RestKeepsExactly(Rest(g.relationships, Unsupported(vocabulary)), Edge(stubs));
    KnownKeepsExactly(g.entities, stubs);
    assert end !in stubs;
  }

  // --------------------------------------------------------- the dry run counts

  /** Relationships without a type that touch one of `ids`. */
  function Untyped(rs: seq<Relationship>, ids: set<Id>): nat {
    if rs == [] then 0
    else
      var r := rs[|rs| - 1];
      Untyped(rs[..|rs| - 1], ids) + if r.kind.None? && Touches(r, ids) then 1 else 0
  }

  lemma {:induction false} DeletedInParts(rs: seq<Relationship>, vocabulary: set<string>, stubs: set<Id>, ids: set<Id>)
    requires forall r :: r in rs ==> (Touches(r, stubs) <==> Touches(r, ids))
    ensures |Rest(Rest(rs, Unsupported(vocabulary)), Edge(stubs))|
            + Selected(rs, Unsupported(vocabulary)) + Selected(rs, Stub(ids, vocabulary)) + Untyped(rs, ids) == |rs|
  {
    if rs != [] {
      var most, r := rs[..|rs| - 1], rs[|rs| - 1];
      DeletedInParts(most, vocabulary, stubs, ids);
      var kept := Rest(most, Unsupported(vocabulary));
      if Selects(Unsupported(vocabulary), r) {
        assert Rest(rs, Unsupported(vocabulary)) == kept;
      } else {
        assert Rest(rs, Unsupported(vocabulary)) == kept + [r];
        assert (kept + [r])[..|kept|] == kept;
        assert r in rs;
      }
    }
  }

  lemma {:induction false} NoneUntyped(rs: seq<Relationship>, ids: set<Id>)
    ensures Untyped(rs, ids) == 0 <==> forall r :: r in rs && Touches(r, ids) ==> r.kind.Some?
  {
    if rs != [] {
      NoneUntyped(rs[..|rs| - 1], ids);
      assert rs == rs[..|rs| - 1] + [rs[|rs| - 1]];
    }
  }

  /** The dry run announces exactly what a repair deletes, exactly when no
      relationship to an unknown entity has a NULL type; each of those is deleted
      without having been counted. */
  lemma DryRunExactlyWithoutNulls(g: Graph, vocabulary: set<string>)
    ensures var unknown := UnknownIds(g.entities);
      var counted :=
        Selected(g.relationships, Unsupported(vocabulary)) + Selected(g.relationships, Stub(unknown, vocabulary));
      var deleted := |g.relationships| - |Repaired(g, vocabulary).relationships|;
      && deleted == counted + Untyped(g.relationships, unknown)
      && (counted == deleted <==> forall r :: r in g.relationships && Touches(r, unknown) ==> r.kind.Some?)
  {
    var unknown := UnknownIds(g.entities);
    forall r | r in g.relationships ensures Touches(r, StubIds(g)) <==> Touches(r, unknown) { EdgesFindStubs(g, r); }
    DeletedInParts(g.relationships, vocabulary, StubIds(g), unknown);
    NoneUntyped(g.relationships, unknown);
  }

  /** One unknown entity, related to itself without a type: the dry run counts
      nothing and the repair deletes the relationship.  Every table the repository
      creates has a NOT NULL type, so such a row needs a database made elsewhere, which
      the tool accepts, as it looks at the names of the tables only. */
  lemma NullTypeIsNotCounted(vocabulary: set<string>)
    ensures var e, r := Entity(Id("a"), Some("unknown")), Relationship(Id("a"), Id("a"), None);
      var g := Graph([e], [r]);
      && Selected([r], Unsupported(vocabulary)) + Selected([r], Stub(UnknownIds([e]), vocabulary)) == 0
      && Repaired(g, vocabulary).relationships == []
  {
    var e, r := Entity(Id("a"), Some("unknown")), Relationship(Id("a"), Id("a"), None);
    assert TrimRight("unknown") == "unknown" && TrimLeft("unknown") == "unknown" && Lower("unknown") == "unknown";
    assert e in [e] && e.id in UnknownIds([e]);
    NothingSelected([r], Unsupported(vocabulary));
    NothingSelected([r], Stub(UnknownIds([e]), vocabulary));
    EdgesFindStubs(Graph([e], [r]), r);
    assert r in [r] && Touches(r, StubIds(Graph([e], [r])));
    assert Rest([r], Edge(StubIds(Graph([e], [r])))) == [];
  }

  // ----------------------------------------------------------------- twice

  lemma {:induction false} NothingSelected(rs: seq<Relationship>, c: Clause)
    requires forall r :: r in rs ==> !Selects(c, r)
    ensures Rest(rs, c) == rs && Selected(rs, c) == 0
  {
    if rs != [] {
      var most, r := rs[..|rs| - 1], rs[|rs| - 1];
      assert r in rs && rs == most + [r];
      assert forall x :: x in most ==> x in rs;
      NothingSelected(most, c);
    }
  }

  lemma {:induction false} NothingDoomed(es: seq<Entity>, stubs: set<Id>)
    requires stubs == {}
    ensures Known(es, stubs) == es
  {
    if es != [] {
      NothingDoomed(es[..|es| - 1], stubs);
      assert es == es[..|es| - 1] + [es[|es| - 1]];
    }
  }

  /** A repaired graph has no stubs left. */
  lemma NoStubsLeft(g: Graph, vocabulary: set<string>)
    ensures StubIds(Repaired(g, vocabulary)) == {}
  {
    var g', stubs := Repaired(g, vocabulary), StubIds(g);
    RestKeepsExactly(g.relationships, Unsupported(vocabulary));
    RestKeepsExactly(Rest(g.relationships, Unsupported(vocabulary)), Edge(stubs));
    KnownKeepsExactly(g.entities, stubs);
    forall e | e in g'.entities && IsUnknown(e) ensures forall r :: r in g'.relationships ==> !Touches(r, {e.id}) {
      forall r | r in g'.relationships ensures !Touches(r, {e.id}) {
        assert r in g.relationships && !Touches(r, stubs);
      }
    }
  }

  /** A second repair finds nothing to count but isolated unknowns, and deletes
      nothing. */
  lemma SecondRepairDoesNothing(g: Graph, vocabulary: set<string>)
    ensures var g' := Repaired(g, vocabulary);
      && Repaired(g', vocabulary) == g'
      && Selected(g'.relationships, Unsupported(vocabulary)) == 0
      && Selected(g'.relationships, Stub(UnknownIds(g'.entities), vocabulary)) == 0
  {
    var g', stubs := Repaired(g, vocabulary), StubIds(g);
    NoStubsLeft(g, vocabulary);
    RestKeepsExactly(g.relationships, Unsupported(vocabulary));
    RestKeepsExactly(Rest(g.relationships, Unsupported(vocabulary)), Edge(stubs));
    NothingSelected(g'.relationships, Unsupported(vocabulary));
    NothingSelected(g'.relationships, Edge({}));
    NothingDoomed(g'.entities, {});
    forall r | r in g'.relationships ensures !Selects(Stub(UnknownIds(g'.entities), vocabulary), r) {
      EdgesFindStubs(g', r);
    }
    NothingSelected(g'.relationships, Stub(UnknownIds(g'.entities), vocabulary));
  }
}
