/** The sanitised shape of a JSON value: what it keeps and what it hides. */
module JsonShape {
  import opened TextOrder

  datatype Json =
    | Null
    | Bool(b: bool)
    | Number(digits: string)
    | Text(s: string)
    | List(items: seq<Json>)
    | Object(fields: map<string, Json>)

  datatype Kind = NullKind | BoolKind | NumberKind | TextKind | ListKind | ObjectKind

  function Coarse(j: Json): Kind {
    match j
    case Null => NullKind
    case Bool(_) => BoolKind
    case Number(_) => NumberKind
    case Text(_) => TextKind
    case List(_) => ListKind
    case Object(_) => ObjectKind
  }

  /** Length buckets, named by their upper ends. */
  datatype Bucket = Zero | To16 | To128 | To1024 | To8192 | Beyond

  function BucketOf(n: int): Bucket {
    if n == 0 then Zero
    else if n <= 16 then To16
    else if n <= 128 then To128
    else if n <= 1024 then To1024
    else if n <= 8192 then To8192
    else Beyond
  }

  /** Length of a character in ASCII-only JSON text. */
  function CharLen(c: char): nat {
    if c in "\"\\\n\r\t" || c as int == 8 || c as int == 12 then 2
    else if ' ' <= c <= '~' then 1
    else if c as int < 0x10000 then 6
    else 12
  }

  function TextLen(s: string): nat {
    if s == "" then 0 else CharLen(s[0]) + TextLen(s[1..])
  }

  predicate IsLeaf(j: Json) {
    j.Bool? || j.Number? || j.Text?
  }

  function SerializedLen(j: Json): nat
    requires IsLeaf(j)
  {
    match j
    case Bool(b) => if b then 4 else 5
    case Number(digits) => |digits|
    case Text(s) => 2 + TextLen(s)
  }

  // ------------------------------------------------------ the texts it measures

  function Hex(n: nat): char
    requires n < 16
  {
    "0123456789abcdef"[n]
  }

  function Unit(n: nat): string
    requires n < 0x10000
  {
    "\\u" + [Hex(n / 0x1000), Hex(n / 0x100 % 0x10), Hex(n / 0x10 % 0x10), Hex(n % 0x10)]
  }

  /** A character as ASCII-only JSON text writes it. */
  function Escaped(c: char): string {
    var n := c as int;
    if c == '"' then "\\\"" else if c == '\\' then "\\\\"
    else if n == 8 then "\\b" else if n == 9 then "\\t" else if n == 10 then "\\n"
    else if n == 12 then "\\f" else if n == 13 then "\\r"
    else if 32 <= n < 127 then [c]
    else if n < 0x10000 then Unit(n)
    else Unit(0xd800 + (n - 0x10000) / 0x400 % 0x400) + Unit(0xdc00 + n % 0x400)
  }

  function EscapedText(s: string): string {
    if s == "" then "" else Escaped(s[0]) + EscapedText(s[1..])
  }

  /** A leaf as JSON text. */
  function Written(j: Json): string
    requires IsLeaf(j)
  {
    match j
    case Bool(b) => if b then "true" else "false"
    case Number(digits) => digits
    case Text(s) => "\"" + EscapedText(s) + "\""
  }

  lemma CharIsWritten(c: char)
    ensures |Escaped(c)| == CharLen(c)
  {
    assert c in "\"\\\n\r\t" <==> c == '"' || c == '\\' || c as int == 10 || c as int == 13 || c as int == 9;
  }

  lemma {:induction false} TextIsWritten(s: string)
    ensures |EscapedText(s)| == TextLen(s)
  {
    if s != "" {
      CharIsWritten(s[0]);
      TextIsWritten(s[1..]);
    }
  }

  /** The length that a shape buckets is that of the value's JSON text. */
  lemma LeafIsWritten(j: Json)
    requires IsLeaf(j)
    ensures SerializedLen(j) == |Written(j)|
  {
    if j.Text? { TextIsWritten(j.s); }
  }

  /** Where the buckets end. */
  lemma BucketsSay(n: nat)
    ensures BucketOf(n) == Zero <==> n == 0
    ensures BucketOf(n) == To16 <==> 1 <= n < 17
    ensures BucketOf(n) == To128 <==> 17 <= n < 129
    ensures BucketOf(n) == To1024 <==> 129 <= n < 1025
    ensures BucketOf(n) == To8192 <==> 1025 <= n < 8193
    ensures BucketOf(n) == Beyond <==> 8193 <= n
  {}

  /** The shape of a value: a record per kind, whose fixed labels are field names
      and enumerations, so its only texts are the keys it lists. */
  datatype Shape =
    | NullShape
    | LeafShape(top: Kind, length: Bucket)
    | ListShape(count: Bucket, itemTypes: multiset<Kind>, items: seq<Shape>)
    | ObjectShape(keyCount: Bucket, keys: seq<string>, fields: map<string, Shape>, valueTypes: map<Kind, nat>)

  function Types(items: seq<Json>): seq<Kind> {
    seq(|items|, i requires 0 <= i < |items| => Coarse(items[i]))
  }

  function KeysOfType(fields: map<string, Json>, kind: Kind): set<string> {
    set k | k in fields && Coarse(fields[k]) == kind
  }

  function FieldCounts(fields: map<string, Json>): map<Kind, nat> {
    map t | t in (set k | k in fields :: Coarse(fields[k])) :: |KeysOfType(fields, t)|
  }

  ghost function SortedKeys(keys: set<string>): seq<string> {
    Arrange(multiset(keys), (k: string) => k)
  }

  /** `text` is the JSON text that item shapes are sorted by. */
  ghost function ShapeOf(j: Json, text: Shape -> string): Shape
    decreases j, 1
  {
    match j
    case Null => NullShape
    case Bool(_) => LeafShape(Coarse(j), BucketOf(SerializedLen(j)))
    case Number(_) => LeafShape(Coarse(j), BucketOf(SerializedLen(j)))
    case Text(_) => LeafShape(Coarse(j), BucketOf(SerializedLen(j)))
    case List(items) =>
      ListShape(
        BucketOf(|items|),
        multiset(Types(items)),
        Arrange(multiset(ItemShapes(j, text)), text))
    case Object(fields) =>
      ObjectShape(
        BucketOf(|fields|),
        SortedKeys(fields.Keys),
        FieldShapes(j, text),
        FieldCounts(fields))
  }

  ghost function ItemShapes(j: Json, text: Shape -> string): seq<Shape>
    requires j.List?
    decreases j, 0
  {
    seq(|j.items|, i requires 0 <= i < |j.items| => ShapeOf(j.items[i], text))
  }

  ghost function FieldShapes(j: Json, text: Shape -> string): map<string, Shape>
    requires j.Object?
    decreases j, 0
  {
    map k | k in j.fields :: ShapeOf(j.fields[k], text)
  }

  // ------------------------------------------------- what two shapes agree on

  ghost predicate Permutes(p: seq<nat>, n: nat) {
    |p| == n && (forall i :: 0 <= i < n ==> p[i] < n) && forall i, j :: 0 <= i < j < n ==> p[i] != p[j]
  }

  /** Equal up to the order of list items and up to replacing a leaf by a leaf of
      its type and length bucket. */
  ghost predicate Similar(a: Json, b: Json) {
    match a
    case Null => b.Null?
    case Bool(_) => SimilarLeaf(a, b)
    case Number(_) => SimilarLeaf(a, b)
    case Text(_) => SimilarLeaf(a, b)
    case List(items) =>
      b.List? && |b.items| == |items|
      && (exists p :: Permutes(p, |items|) && forall i :: 0 <= i < |items| ==> Similar(items[i], b.items[p[i]]))
    case Object(fields) =>
      b.Object? && fields.Keys == b.fields.Keys && forall k :: k in fields ==> Similar(fields[k], b.fields[k])
  }

  ghost predicate SimilarLeaf(a: Json, b: Json)
    requires IsLeaf(a)
  {
    IsLeaf(b) && Coarse(a) == Coarse(b) && BucketOf(SerializedLen(a)) == BucketOf(SerializedLen(b))
  }

  ghost predicate Rearranged<T>(s: seq<T>, t: seq<T>, p: seq<nat>) {
    Permutes(p, |s|) && |t| == |s| && forall i :: 0 <= i < |s| ==> s[i] == t[p[i]]
  }

  function Drop<T>(t: seq<T>, q: nat): seq<T>
    requires q < |t|
  {
    t[..q] + t[q + 1..]
  }

  lemma DropOne<T>(t: seq<T>, q: nat)
    requires q < |t|
    ensures multiset(t) == multiset(Drop(t, q)) + multiset{t[q]}
  {
    assert t == t[..q] + [t[q]] + t[q + 1..];
  }

  /** Without the last of `s` and its place in `t`. */
  lemma WithoutLast<T>(s: seq<T>, t: seq<T>, p: seq<nat>) returns (p': seq<nat>)
    requires s != [] && Rearranged(s, t, p)
    ensures Rearranged(s[..|s| - 1], Drop(t, p[|s| - 1]), p')
  {
    var n, q := |s| - 1, p[|s| - 1];
    p' := seq(n, i requires 0 <= i < n => if p[i] > q then (p[i] - 1) as nat else p[i]);
    forall i | 0 <= i < n ensures p'[i] < n && s[..n][i] == Drop(t, q)[p'[i]] { assert p[i] != p[n]; }
    forall i, j | 0 <= i < j < n ensures p'[i] != p'[j] { assert p[i] != p[j] && p[i] != p[n] && p[j] != p[n]; }
  }

  lemma {:induction false} RearrangedIsSame<T>(s: seq<T>, t: seq<T>, p: seq<nat>)
    requires Rearranged(s, t, p)
    ensures multiset(s) == multiset(t)
  {
    if s != [] {
      var n, q := |s| - 1, p[|s| - 1];
      var p' := WithoutLast(s, t, p);
      RearrangedIsSame(s[..n], Drop(t, q), p');
      DropOne(t, q);
      DropOne(s, n);
      assert Drop(s, n) == s[..n];
    }
  }

  lemma PutBack<T>(s: seq<T>, t: seq<T>, q: nat, p': seq<nat>) returns (p: seq<nat>)
    requires s != [] && q < |t| && s[|s| - 1] == t[q] && Rearranged(s[..|s| - 1], Drop(t, q), p')
    ensures Rearranged(s, t, p)
  {
    var n := |s| - 1;
    p := seq(n, i requires 0 <= i < n => if p'[i] >= q then p'[i] + 1 else p'[i]) + [q];
    forall i | 0 <= i < n ensures s[i] == t[p[i]] { assert s[..n][i] == Drop(t, q)[p'[i]]; }
  }

  lemma {:induction false} SameIsRearranged<T>(s: seq<T>, t: seq<T>) returns (p: seq<nat>)
    requires multiset(s) == multiset(t)
    ensures Rearranged(s, t, p)
  {
    assert |s| == |multiset(s)| == |multiset(t)| == |t|;
    if s == [] {
      p := [];
    } else {
      var n := |s| - 1;
      assert s[n] in multiset(t);
      var q: nat :| q < |t| && t[q] == s[n];
      DropOne(t, q);
      DropOne(s, n);
      assert Drop(s, n) == s[..n];
      assert multiset(s[..n]) == multiset(s) - multiset{s[n]};
      assert multiset(Drop(t, q)) == multiset(t) - multiset{t[q]};
      var p' := SameIsRearranged(s[..n], Drop(t, q));
      p := PutBack(s, t, q, p');
    }
  }

  lemma ShapeKeepsType(a: Json, b: Json, text: Shape -> string)
    requires ShapeOf(a, text) == ShapeOf(b, text)
    ensures Coarse(a) == Coarse(b)
  {}

  /** Lists have one shape exactly when their items have the same shapes, counted. */
  lemma ListShapes(a: Json, b: Json, text: Shape -> string)
    requires a.List? && b.List?
    ensures ShapeOf(a, text) == ShapeOf(b, text)
            <==> multiset(ItemShapes(a, text)) == multiset(ItemShapes(b, text))
  {
    var sa, sb := ItemShapes(a, text), ItemShapes(b, text);
    if multiset(sa) == multiset(sb) {
      var p := SameIsRearranged(sa, sb);
      forall i | 0 <= i < |a.items| ensures Types(a.items)[i] == Types(b.items)[p[i]] {
        assert sa[i] == sb[p[i]];
        ShapeKeepsType(a.items[i], b.items[p[i]], text);
      }
      assert Rearranged(Types(a.items), Types(b.items), p);
      RearrangedIsSame(Types(a.items), Types(b.items), p);
    }
    assert ShapeOf(a, text).items == Arrange(multiset(sa), text);
    assert ShapeOf(b, text).items == Arrange(multiset(sb), text);
  }

  /** Objects have one shape exactly when they agree key by key. */
  lemma ObjectShapes(a: Json, b: Json, text: Shape -> string)
    requires a.Object? && b.Object?
    ensures ShapeOf(a, text) == ShapeOf(b, text)
            <==> FieldShapes(a, text) == FieldShapes(b, text)
  {
    var fa, fb := FieldShapes(a, text), FieldShapes(b, text);
    assert ShapeOf(a, text).fields == fa && ShapeOf(b, text).fields == fb;
    if fa == fb {
      assert a.fields.Keys == fa.Keys == fb.Keys == b.fields.Keys;
      forall k | k in a.fields ensures Coarse(a.fields[k]) == Coarse(b.fields[k]) {
        assert fa[k] == fb[k];
        ShapeKeepsType(a.fields[k], b.fields[k], text);
      }
      SameFieldCounts(a.fields, b.fields);
      assert |a.fields| == |a.fields.Keys| && |b.fields| == |b.fields.Keys|;
    }
  }

  lemma SameFields(a: Json, b: Json, text: Shape -> string)
    requires a.Object? && b.Object?
    ensures FieldShapes(a, text) == FieldShapes(b, text)
            <==> a.fields.Keys == b.fields.Keys
                 && forall k :: k in a.fields && k in b.fields ==>
                      ShapeOf(a.fields[k], text) == ShapeOf(b.fields[k], text)
  {
    var fa, fb := FieldShapes(a, text), FieldShapes(b, text);
    assert fa.Keys == a.fields.Keys && fb.Keys == b.fields.Keys;
    if fa == fb {
      forall k | k in a.fields && k in b.fields ensures ShapeOf(a.fields[k], text) == ShapeOf(b.fields[k], text) {
        assert fa[k] == fb[k];
      }
    }
  }

  lemma SameFieldCounts(a: map<string, Json>, b: map<string, Json>)
    requires a.Keys == b.Keys && forall k :: k in a ==> Coarse(a[k]) == Coarse(b[k])
    ensures FieldCounts(a) == FieldCounts(b)
  {
    forall t ensures KeysOfType(a, t) == KeysOfType(b, t) {}
    assert (set k | k in a :: Coarse(a[k])) == (set k | k in b :: Coarse(b[k]));
  }

  /** Two values have the same shape exactly when they are similar. */
  lemma {:induction false} SameShapeIffSimilar(a: Json, b: Json, text: Shape -> string)
    ensures ShapeOf(a, text) == ShapeOf(b, text) <==> Similar(a, b)
  {
    if Coarse(a) != Coarse(b) {
      if ShapeOf(a, text) == ShapeOf(b, text) { ShapeKeepsType(a, b, text); }
    } else {
      match a
      case Null =>
      case Bool(_) =>
      case Number(_) =>
      case Text(_) =>
      case List(items) =>
        ListShapes(a, b, text);
        forall i, j | 0 <= i < |items| && 0 <= j < |b.items|
          ensures ItemShapes(a, text)[i] == ItemShapes(b, text)[j] <==> Similar(items[i], b.items[j])
        {
          SameShapeIffSimilar(items[i], b.items[j], text);
        }
        PairedOff(a, b, text);
      case Object(fields) =>
        ObjectShapes(a, b, text);
        SameFields(a, b, text);
        forall k | k in fields && k in b.fields
          ensures ShapeOf(fields[k], text) == ShapeOf(b.fields[k], text) <==> Similar(fields[k], b.fields[k])
        {
          SameShapeIffSimilar(fields[k], b.fields[k], text);
        }
    }
  }

  lemma PairedOff(a: Json, b: Json, text: Shape -> string)
    requires a.List? && b.List?
    requires forall i, j :: 0 <= i < |a.items| && 0 <= j < |b.items| ==>
      (ItemShapes(a, text)[i] == ItemShapes(b, text)[j] <==> Similar(a.items[i], b.items[j]))
    ensures multiset(ItemShapes(a, text)) == multiset(ItemShapes(b, text)) <==> Similar(a, b)
  {
    var sa, sb := ItemShapes(a, text), ItemShapes(b, text);
    if multiset(sa) == multiset(sb) {
      var p := SameIsRearranged(sa, sb);
      assert forall i :: 0 <= i < |sa| ==> sa[i] == sb[p[i]];
    }
    if Similar(a, b) {
      var p :| Permutes(p, |a.items|)
        && forall i :: 0 <= i < |a.items| ==> Similar(a.items[i], b.items[p[i]]);
      assert Rearranged(sa, sb, p);
      RearrangedIsSame(sa, sb, p);
    }
  }

  // ---------------------------------------------------- what a shape may reveal

  /** `s` is a key of `j`, at some depth. */
  ghost predicate HasKey(s: string, j: Json) {
    match j
    case Null => false
    case Bool(_) => false
    case Number(_) => false
    case Text(_) => false
    case List(items) => exists i :: 0 <= i < |items| && HasKey(s, items[i])
    case Object(fields) => exists k :: k in fields && (k == s || HasKey(s, fields[k]))
  }

  /** `s` is written in the shape, at some depth. */
  ghost predicate Reveals(shape: Shape, s: string) {
    match shape
    case NullShape => false
    case LeafShape(_, _) => false
    case ListShape(_, _, items) => exists i :: 0 <= i < |items| && Reveals(items[i], s)
    case ObjectShape(_, keys, fields, _) =>
      s in keys || exists k :: k in fields && (k == s || Reveals(fields[k], s))
  }

  /** The key validation of a parsed value. */
  predicate KeysAllowed(j: Json, allowed: set<string>) {
    match j
    case Null => true
    case Bool(_) => true
    case Number(_) => true
    case Text(_) => true
    case List(items) => forall i :: 0 <= i < |items| ==> KeysAllowed(items[i], allowed)
    case Object(fields) => forall k :: k in fields ==> k in allowed && KeysAllowed(fields[k], allowed)
  }

  lemma {:induction false} AllowedExactly(j: Json, allowed: set<string>)
    ensures KeysAllowed(j, allowed) <==> forall s :: HasKey(s, j) ==> s in allowed
  {
    match j
    case Null =>
    case Bool(_) =>
    case Number(_) =>
    case Text(_) =>
    case List(items) =>
      forall i | 0 <= i < |items|
        ensures KeysAllowed(items[i], allowed) <==> forall s :: HasKey(s, items[i]) ==> s in allowed
      {
        AllowedExactly(items[i], allowed);
      }
      assert forall i, s :: 0 <= i < |items| && HasKey(s, items[i]) ==> HasKey(s, j);
    case Object(fields) =>
      forall k | k in fields
        ensures KeysAllowed(fields[k], allowed) <==> forall s :: HasKey(s, fields[k]) ==> s in allowed
      {
        AllowedExactly(fields[k], allowed);
      }
      assert forall k, s :: k in fields && (k == s || HasKey(s, fields[k])) ==> HasKey(s, j);
  }

  lemma SameMembersReveal(a: seq<Shape>, b: seq<Shape>, i: nat, s: string) returns (m: nat)
    requires multiset(a) == multiset(b) && i < |a| && Reveals(a[i], s)
    ensures m < |b| && Reveals(b[m], s)
  {
    assert a[i] in multiset(b);
    m :| m < |b| && b[m] == a[i];
  }

  lemma SortedKeysAreKeys(keys: set<string>, s: string)
    ensures s in SortedKeys(keys) <==> s in keys
  {
    assert s in SortedKeys(keys) <==> s in multiset(SortedKeys(keys));
  }

  lemma ObjectShapeIs(j: Json, text: Shape -> string)
    requires j.Object?
    ensures ShapeOf(j, text)
         == ObjectShape(BucketOf(|j.fields|), SortedKeys(j.fields.Keys), FieldShapes(j, text), FieldCounts(j.fields))
  {}

  /** The shape of an object shows its keys and what its fields' shapes show. */
  lemma ObjectRevealsKeys(j: Json, text: Shape -> string, s: string)
    requires j.Object? && Reveals(ShapeOf(j, text), s)
    requires forall k :: k in j.fields && Reveals(FieldShapes(j, text)[k], s) ==> HasKey(s, j.fields[k])
    ensures HasKey(s, j)
  {
    ObjectShapeIs(j, text);
    SortedKeysAreKeys(j.fields.Keys, s);
    if s !in j.fields {
      var k :| k in FieldShapes(j, text) && (k == s || Reveals(FieldShapes(j, text)[k], s));
      assert k in j.fields && HasKey(s, j.fields[k]);
    }
  }

  lemma ObjectShowsKeys(j: Json, text: Shape -> string, s: string)
    requires j.Object? && HasKey(s, j)
    requires forall k :: k in j.fields && HasKey(s, j.fields[k]) ==> Reveals(FieldShapes(j, text)[k], s)
    ensures Reveals(ShapeOf(j, text), s)
  {
    ObjectShapeIs(j, text);
    SortedKeysAreKeys(j.fields.Keys, s);
    if s !in j.fields {
      var k :| k in j.fields && (k == s || HasKey(s, j.fields[k]));
      assert k in FieldShapes(j, text) && Reveals(FieldShapes(j, text)[k], s);
    }
  }

  lemma ObjectReveals(j: Json, text: Shape -> string, s: string)
    requires j.Object?
    requires forall k :: k in j.fields ==> (Reveals(FieldShapes(j, text)[k], s) <==> HasKey(s, j.fields[k]))
    ensures Reveals(ShapeOf(j, text), s) <==> HasKey(s, j)
  {
    if Reveals(ShapeOf(j, text), s) { ObjectRevealsKeys(j, text, s); }
    if HasKey(s, j) { ObjectShowsKeys(j, text, s); }
  }

  lemma ListReveals(j: Json, text: Shape -> string, s: string)
    requires j.List?
    requires forall i :: 0 <= i < |j.items| ==> (Reveals(ItemShapes(j, text)[i], s) <==> HasKey(s, j.items[i]))
    ensures Reveals(ShapeOf(j, text), s) <==> HasKey(s, j)
  {
    var shapes := ItemShapes(j, text);
    var arranged := Arrange(multiset(shapes), text);
    assert ShapeOf(j, text).items == arranged;
    if Reveals(ShapeOf(j, text), s) {
      var m: nat :| m < |arranged| && Reveals(arranged[m], s);
      var i := SameMembersReveal(arranged, shapes, m, s);
      assert HasKey(s, j.items[i]);
    }
    if HasKey(s, j) {
      var i: nat :| i < |j.items| && HasKey(s, j.items[i]);
      var m := SameMembersReveal(shapes, arranged, i, s);
    }
  }

  /** The texts in a shape are exactly the keys of its value: every key shows, and
      no text of a leaf does. */
  lemma {:induction false} ShapeRevealsKeysOnly(j: Json, text: Shape -> string, s: string)
    ensures Reveals(ShapeOf(j, text), s) <==> HasKey(s, j)
  {
    if j.List? {
      forall i | 0 <= i < |j.items| ensures Reveals(ItemShapes(j, text)[i], s) <==> HasKey(s, j.items[i]) {
        ShapeRevealsKeysOnly(j.items[i], text, s);
      }
      ListReveals(j, text, s);
    } else if j.Object? {
      forall k | k in j.fields
        ensures Reveals(FieldShapes(j, text)[k], s) <==> HasKey(s, j.fields[k])
      {
        ShapeRevealsKeysOnly(j.fields[k], text, s);
      }
      ObjectReveals(j, text, s);
    }
  }

  /** A shape tells the kind of its value; that of a leaf, besides, only the bucket of the
      length of its JSON text. */
  lemma KindsSay(j: Json, text: Shape -> string)
    ensures ShapeOf(j, text).NullShape? <==> j == Null
    ensures ShapeOf(j, text).ListShape? <==> j.List?
    ensures ShapeOf(j, text).ObjectShape? <==> j.Object?
    ensures IsLeaf(j) ==>
      var kind := if j.Bool? then BoolKind else if j.Number? then NumberKind else TextKind;
      ShapeOf(j, text) == LeafShape(kind, BucketOf(|Written(j)|))
    ensures j.List? ==> ShapeOf(j, text).count == BucketOf(|j.items|)
    ensures j.Object? ==> ShapeOf(j, text).keyCount == BucketOf(|j.fields|)
  {
    if IsLeaf(j) { LeafIsWritten(j); }
  }

  ghost function OfKind(items: seq<Json>, kind: Kind): set<nat> {
    set i: nat | i < |items| && Coarse(items[i]) == kind
  }

  lemma TypesOneMore(items: seq<Json>, item: Json)
    ensures Types(items + [item]) == Types(items) + [Coarse(item)]
  {}

  lemma OneMoreOfKind(items: seq<Json>, item: Json, kind: Kind)
    ensures |OfKind(items + [item], kind)| == |OfKind(items, kind)| + if Coarse(item) == kind then 1 else 0
  {
    var n := |items|;
    assert OfKind(items + [item], kind) == OfKind(items, kind) + if Coarse(item) == kind then {n} else {};
  }

  lemma {:induction false} KindsAreCounted(items: seq<Json>, kind: Kind)
    ensures multiset(Types(items))[kind] == |OfKind(items, kind)|
  {
    if items != [] {
      var fewer, item := items[..|items| - 1], items[|items| - 1];
      KindsAreCounted(fewer, kind);
      assert items == fewer + [item];
      TypesOneMore(fewer, item);
      OneMoreOfKind(fewer, item, kind);
    }
  }

  /** The shape of a list counts its items by kind, */
  lemma ListKindsSay(j: Json, text: Shape -> string, kind: Kind)
    requires j.List?
    ensures ShapeOf(j, text).ListShape? && ShapeOf(j, text).itemTypes[kind] == |OfKind(j.items, kind)|
  {
    KindsAreCounted(j.items, kind);
  }

  /** and holds their shapes in the order of their texts. */
  lemma ListItemsSay(j: Json, text: Shape -> string)
    requires j.List?
    ensures ShapeOf(j, text).ListShape?
    ensures multiset(ShapeOf(j, text).items) == multiset(ItemShapes(j, text))
    ensures SortedBy(ShapeOf(j, text).items, text)
  {
    ArrangeSorts(multiset(ItemShapes(j, text)), text);
    assert ShapeOf(j, text).items == Arrange(multiset(ItemShapes(j, text)), text);
  }

  ghost function FieldsOfKind(fields: map<string, Json>, kind: Kind): set<string> {
    set k | k in fields && Coarse(fields[k]) == kind
  }

  lemma FieldsAreCounted(fields: map<string, Json>, kind: Kind)
    ensures kind in FieldCounts(fields) <==> FieldsOfKind(fields, kind) != {}
    ensures kind in FieldCounts(fields) ==> FieldCounts(fields)[kind] == |FieldsOfKind(fields, kind)|
  {
    if k :| k in fields && Coarse(fields[k]) == kind {
      assert k in FieldsOfKind(fields, kind);
    }
  }

  /** However its keys are put in order, an object's shape lists them so. */
  lemma KeysInOrder(keys: seq<string>, all: set<string>)
    requires multiset(keys) == multiset(all) && SortedBy(keys, (k: string) => k)
    ensures keys == SortedKeys(all)
  {
    ArrangeIsTheSortedOrder(keys, (k: string) => k);
  }

  /** The shape of an object lists its keys in order, each once, and counts its values by
      kind, leaving out the kinds that do not occur. */
  lemma ObjectsSay(j: Json, text: Shape -> string, kind: Kind)
    requires j.Object?
    ensures var s := ShapeOf(j, text);
      && s.ObjectShape? && multiset(s.keys) == multiset(j.fields.Keys) && SortedBy(s.keys, (k: string) => k)
      && (kind in s.valueTypes <==> FieldsOfKind(j.fields, kind) != {})
      && (kind in s.valueTypes ==> s.valueTypes[kind] == |FieldsOfKind(j.fields, kind)|)
  {
    ObjectShapeIs(j, text);
    FieldsAreCounted(j.fields, kind);
    ArrangeSorts(multiset(j.fields.Keys), (k: string) => k);
  }

  /** The whole validation of a column, which holds a list or an object. */
  predicate Validates(j: Json, asList: bool, allowed: set<string>) {
    (if asList then j.List? else j.Object?) && KeysAllowed(j, allowed)
  }

  /** A shape of the kind that a column holds, with no text but allowed ones. */
  ghost predicate IsPublic(shape: Shape, asList: bool, allowed: set<string>) {
    (if asList then shape.ListShape? else shape.ObjectShape?) && forall s :: Reveals(shape, s) ==> s in allowed
  }

  /** Validation passes exactly when the shape may be published. */
  lemma PublicExactlyWhenValidated(j: Json, asList: bool, text: Shape -> string, allowed: set<string>)
    ensures Validates(j, asList, allowed) <==> IsPublic(ShapeOf(j, text), asList, allowed)
  {
    AllowedExactly(j, allowed);
    forall s ensures Reveals(ShapeOf(j, text), s) <==> HasKey(s, j) { ShapeRevealsKeysOnly(j, text, s); }
  }
}
