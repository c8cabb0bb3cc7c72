/** Texts ordered by code point, the shorter first of two that agree as far as it goes,
    and collections arranged by a text key. */
module TextOrder {

  predicate Leq(a: string, b: string) {
    a == "" || (b != "" && (a[0] < b[0] || (a[0] == b[0] && Leq(a[1..], b[1..]))))
  }

  /** One text comes before another when it is a beginning of it, or smaller at the first
      place where they differ. */
  lemma {:induction false} LeqSays(a: string, b: string)
    ensures Leq(a, b) <==>
      exists i :: 0 <= i <= |a| && i <= |b| && a[..i] == b[..i] && (i == |a| || (i < |b| && a[i] < b[i]))
  {
    if a == "" {
      assert a[..0] == b[..0];
    } else if b != "" {
      LeqSays(a[1..], b[1..]);
      if Leq(a, b) {
        if a[0] < b[0] {
          assert a[..0] == b[..0];
        } else {
          var x, y := a[1..], b[1..];
          var i :| 0 <= i <= |x| && i <= |y| && x[..i] == y[..i] && (i == |x| || (i < |y| && x[i] < y[i]));
          assert a[..i + 1] == [a[0]] + x[..i] && b[..i + 1] == [b[0]] + y[..i];
        }
      }
      if i :| 0 <= i <= |a| && i <= |b| && a[..i] == b[..i] && (i == |a| || (i < |b| && a[i] < b[i])) {
        if i > 0 {
          var x, y := a[1..], b[1..];
          assert a[..i][0] == b[..i][0];
          assert x[..i - 1] == a[..i][1..] && y[..i - 1] == b[..i][1..];
        }
      }
    }
  }

  lemma {:induction false} LeqIsLinear(a: string, b: string)
    ensures Leq(a, b) || Leq(b, a)
    ensures Leq(a, b) && Leq(b, a) ==> a == b
  {
    if a != "" && b != "" {
      LeqIsLinear(a[1..], b[1..]);
      assert a == [a[0]] + a[1..] && b == [b[0]] + b[1..];
    }
  }

  lemma {:induction false} LeqTransitive(a: string, b: string, c: string)
    requires Leq(a, b) && Leq(b, c)
    ensures Leq(a, c)
  {
    if a != "" && a[0] == b[0] == c[0] { LeqTransitive(a[1..], b[1..], c[1..]); }
  }

  ghost predicate Injective<T(!new)>(key: T -> string) {
    forall x, y :: key(x) == key(y) ==> x == y
  }

  ghost predicate IsLeast<T(!new)>(m: multiset<T>, key: T -> string, x: T) {
    x in m && forall y :: y in m ==> Leq(key(x), key(y))
  }

  lemma {:induction false} LeastExists<T(!new)>(m: multiset<T>, key: T -> string)
    requires m != multiset{}
    ensures exists x :: IsLeast(m, key, x)
    decreases |m|
  {
    var z :| z in m;
    var rest := m - multiset{z};
    LeqIsLinear(key(z), key(z));
    if rest == multiset{} {
      assert m == multiset{z};
      assert IsLeast(m, key, z);
    } else {
      LeastExists(rest, key);
      var x :| IsLeast(rest, key, x);
      LeqIsLinear(key(x), key(z));
      var least := if Leq(key(x), key(z)) then x else z;
      forall y | y in m ensures Leq(key(least), key(y)) {
        assert y == z || y in rest;
        if least == z && y in rest { LeqTransitive(key(z), key(x), key(y)); }
      }
      assert IsLeast(m, key, least);
    }
  }

  lemma LeastIsUnique<T(!new)>(m: multiset<T>, key: T -> string, x: T, y: T)
    requires Injective(key) && IsLeast(m, key, x) && IsLeast(m, key, y)
    ensures x == y
  {
    LeqIsLinear(key(x), key(y));
  }

  ghost function Least<T(!new)>(m: multiset<T>, key: T -> string): (x: T)
    requires m != multiset{}
    ensures IsLeast(m, key, x)
  {
    LeastExists(m, key);
    var x :| IsLeast(m, key, x);
    x
  }

  /** The members of `m` in the order of their keys. */
  ghost function Arrange<T(!new)>(m: multiset<T>, key: T -> string): (s: seq<T>)
    ensures multiset(s) == m
    decreases |m|
  {
    if m == multiset{} then []
    else
      var x := Least(m, key);
      [x] + Arrange(m - multiset{x}, key)
  }

  lemma LeastIsBelow<T(!new)>(m: multiset<T>, key: T -> string, x: T, rest: seq<T>)
    requires IsLeast(m, key, x) && multiset(rest) <= m
    ensures forall j :: 0 <= j < |rest| ==> Leq(key(x), key(rest[j]))
  {
    forall j | 0 <= j < |rest| ensures Leq(key(x), key(rest[j])) {
      assert rest[j] in multiset(rest);
    }
  }

  ghost predicate SortedBy<T(!new)>(s: seq<T>, key: T -> string) {
    forall i, j :: 0 <= i < j < |s| ==> Leq(key(s[i]), key(s[j]))
  }

  lemma PrependSorted<T(!new)>(x: T, rest: seq<T>, key: T -> string)
    requires SortedBy(rest, key) && forall j :: 0 <= j < |rest| ==> Leq(key(x), key(rest[j]))
    ensures SortedBy([x] + rest, key)
  {}

  lemma {:induction false} ArrangeSorts<T(!new)>(m: multiset<T>, key: T -> string)
    ensures SortedBy(Arrange(m, key), key)
    decreases |m|
  {
    if m != multiset{} {
      var x := Least(m, key);
      var rest := Arrange(m - multiset{x}, key);
      ArrangeSorts(m - multiset{x}, key);
      LeastIsBelow(m, key, x, rest);
      PrependSorted(x, rest, key);
    }
  }

  /** When keys tell members apart there is only one sorted order. */
  lemma {:induction false} ArrangeIsTheSortedOrder<T(!new)>(s: seq<T>, key: T -> string)
    requires Injective(key) && SortedBy(s, key)
    ensures s == Arrange(multiset(s), key)
  {
    if s != [] {
      var m, x := multiset(s), s[0];
      forall y | y in m ensures Leq(key(x), key(y)) {
        LeqIsLinear(key(x), key(x));
        var i :| 0 <= i < |s| && s[i] == y;
      }
      LeastIsUnique(m, key, x, Least(m, key));
      assert s == [x] + s[1..];
      assert multiset(s[1..]) == m - multiset{x};
      ArrangeIsTheSortedOrder(s[1..], key);
    }
  }
}
