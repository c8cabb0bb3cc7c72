/** Substitution of `${NAME}` references by a loop that rescans from the start. */
module EnvVars {
  import opened Wrappers
  import opened Sequences

  /** The value of every name; a name that is not set has the empty value. */
  type Environment = string -> string

  /** The names that can hold a value at all. The empty name cannot, nor can a name
      with a NUL in it; what follows is proved for any such set of names. */
  type Names = string -> bool

  ghost predicate Only(env: Environment, can: Names) {
    forall name :: !can(name) ==> env(name) == ""
  }

  predicate OpensAt(s: string, i: nat) {
    i + 1 < |s| && s[i] == '$' && s[i + 1] == '{'
  }

  /** Index of the first "${", or the length. */
  function FindOpen(s: string): (i: nat)
    ensures i <= |s| && (i < |s| ==> OpensAt(s, i))
    ensures forall k: nat :: k < i ==> !OpensAt(s, k)
  {
    if |s| < 2 then |s|
    else if s[0] == '$' && s[1] == '{' then 0
    else
      var rest := FindOpen(s[1..]);
      assert forall k: nat :: 0 < k ==> (OpensAt(s, k) <==> OpensAt(s[1..], k - 1));
      1 + rest
  }

  /** Index of the first '}' at or after `from`, or the length. */
  function FindClose(s: string, from: nat): (j: nat)
    requires from <= |s|
    ensures from <= j <= |s| && (j < |s| ==> s[j] == '}')
    ensures forall k :: from <= k < j ==> s[k] != '}'
    decreases |s| - from
  {
    if from == |s| || s[from] == '}' then from else FindClose(s, from + 1)
  }

  datatype Reference = NoRef | Ref(start: nat, end: nat)

  /** The first reference of a text, if it is closed. */
  function FirstRef(s: string): (r: Reference)
    ensures r.Ref? ==> OpensAt(s, r.start) && r.start + 2 <= r.end < |s| && s[r.end] == '}'
    ensures r.Ref? ==> forall k :: r.start <= k < r.end ==> s[k] != '}'
  {
    var start := FindOpen(s);
    if start == |s| then NoRef
    else
      var end := FindClose(s, start);
      if end == |s| then NoRef else Ref(start, end)
  }

  function NameOf(s: string, r: Reference): string
    requires r.Ref? && r.start + 2 <= r.end < |s|
  {
    s[r.start + 2..r.end]
  }

  function ValueOf(s: string, r: Reference, env: Environment): string
    requires r.Ref? && r.start + 2 <= r.end < |s|
  {
    env(NameOf(s, r))
  }

  /** One turn of the loop: the first reference gives way to its value. */
  function Step(s: string, env: Environment): Option<string> {
    var r := FirstRef(s);
    if r.NoRef? then None else Some(s[..r.start] + ValueOf(s, r, env) + s[r.end + 1..])
  }

  /** `s` rewrites to `t` and there stops, in at most `n` turns. */
  ghost predicate StopsAt(s: string, env: Environment, t: string, n: nat)
    decreases n
  {
    var next := Step(s, env);
    if next.None? then t == s else n > 0 && StopsAt(next.value, env, t, n - 1)
  }

  ghost predicate Halts(s: string, env: Environment) {
    exists t, n: nat :: StopsAt(s, env, t, n)
  }

  /** The loop ends exactly on the inputs on which the rewriting stops. */
  method ResolveEnvVars(value: string, env: Environment) returns (result: string)
    requires Halts(value, env)
    ensures exists n: nat :: StopsAt(value, env, result, n)
  {
    ghost var t, left: nat :| StopsAt(value, env, t, left);
    ghost var bound := left;
    result := value;
    while true
      invariant StopsAt(result, env, t, left) && left <= bound
      decreases left
    {
      var start := FindOpen(result);
      if start == |result| { break; }
      var end := FindClose(result, start);
      if end == |result| { break; }
      assert FirstRef(result) == Ref(start, end);
      result := result[..start] + env(result[start + 2..end]) + result[end + 1..];
      left := left - 1;
    }
    assert StopsAt(value, env, result, bound);
  }

  lemma {:induction false} StopIsUnique(s: string, env: Environment, t: string, n: nat, u: string, m: nat)
    requires StopsAt(s, env, t, n) && StopsAt(s, env, u, m)
    ensures t == u && Step(t, env).None?
    decreases n
  {
    if Step(s, env).Some? { StopIsUnique(Step(s, env).value, env, t, n - 1, u, m - 1); }
  }

  // ------------------------------------------------------------ what is left

  predicate ClosedRef(s: string, i: nat, j: nat) {
    OpensAt(s, i) && i + 2 <= j < |s| && s[j] == '}'
  }

  /** The loop stops exactly when no closed reference is left. */
  lemma StopsExactlyWithoutRefs(s: string, env: Environment)
    ensures Step(s, env).None? <==> forall i: nat, j: nat :: !ClosedRef(s, i, j)
  {
    var start := FindOpen(s);
    if start < |s| && FindClose(s, start) < |s| {
      assert ClosedRef(s, start, FindClose(s, start));
    }
    if i: nat, j: nat :| ClosedRef(s, i, j) {
      assert OpensAt(s, start) && start <= i;
    }
  }

  // -------------------------------------------------------------- termination

  function Count(s: string, c: char): nat {
    if s == "" then 0 else (if s[0] == c then 1 else 0) + Count(s[1..], c)
  }

  lemma {:induction false} CountAdds(a: string, b: string, c: char)
    ensures Count(a + b, c) == Count(a, c) + Count(b, c)
  {
    if a == "" {
      assert a + b == b;
    } else {
      CountAdds(a[1..], b, c);
      assert (a + b)[1..] == a[1..] + b;
    }
  }

  lemma {:induction false} CountPositive(s: string, c: char)
    ensures c in s <==> Count(s, c) > 0
  {
    if s != "" { CountPositive(s[1..], c); }
  }

  ghost predicate NeverYields(env: Environment, c: char) {
    forall name :: c !in env(name)
  }

  lemma SpliceCounts(a: string, ref: string, b: string, value: string, c: char)
    requires c in ref && c !in value
    ensures Count(a + value + b, c) < Count(a + ref + b, c)
  {
    CountPositive(ref, c);
    CountPositive(value, c);
    CountAdds(a + ref, b, c);
    CountAdds(a, ref, c);
    CountAdds(a + value, b, c);
    CountAdds(a, value, c);
  }

  lemma StepConsumes(s: string, env: Environment, c: char)
    requires c in "${}" && NeverYields(env, c) && Step(s, env).Some?
    ensures Count(Step(s, env).value, c) < Count(s, c)
  {
    var r := FirstRef(s);
    var ref := s[r.start..r.end + 1];
    assert s == s[..r.start] + ref + s[r.end + 1..];
    assert ref[0] == '$' && ref[1] == '{' && ref[|ref| - 1] == '}';
    SpliceCounts(s[..r.start], ref, s[r.end + 1..], ValueOf(s, r, env), c);
  }

  /** When one of the three marks occurs in no value, the loop ends, after at most
      as many turns as the template has such marks. */
  lemma {:induction false} HaltsWithoutMark(s: string, env: Environment, c: char) returns (t: string)
    requires c in "${}" && NeverYields(env, c)
    ensures StopsAt(s, env, t, Count(s, c))
    decreases Count(s, c)
  {
    if Step(s, env).None? {
      t := s;
    } else {
      StepConsumes(s, env, c);
      t := HaltsWithoutMark(Step(s, env).value, env, c);
      MoreTurns(Step(s, env).value, env, t, Count(Step(s, env).value, c), Count(s, c) - 1);
    }
  }

  lemma {:induction false} MoreTurns(s: string, env: Environment, t: string, n: nat, m: nat)
    requires StopsAt(s, env, t, n) && n <= m
    ensures StopsAt(s, env, t, m)
    decreases n
  {
    if Step(s, env).Some? { MoreTurns(Step(s, env).value, env, t, n - 1, m - 1); }
  }

  /** A value that refers to itself keeps the loop going for ever. */
  lemma SelfReferenceNeverHalts(env: Environment)
    requires env("X") == "${X}"
    ensures !Halts("${X}", env)
  {
    var s := "${X}";
    assert OpensAt(s, 0);
    assert FindClose(s, 0) == 3 && s[2..3] == "X";
    assert s[..0] + env("X") + s[4..] == s;
    assert FindOpen(s) == 0 && Step(s, env) == Some(s);
    if t, n: nat :| StopsAt(s, env, t, n) {
      FixpointNeverStops(s, env, t, n);
    }
  }

  lemma {:induction false} FixpointNeverStops(s: string, env: Environment, t: string, n: nat)
    requires Step(s, env) == Some(s)
    ensures !StopsAt(s, env, t, n)
  {
    if n > 0 { FixpointNeverStops(s, env, t, n - 1); }
  }

  // ------------------------------------------- the templates on which it ends

  /** What is left when the first reference gives way to nothing. */
  function Erased(s: string): string
    requires FirstRef(s).Ref?
  {
    s[..FirstRef(s).start] + s[FirstRef(s).end + 1..]
  }

  /** Erasing references without a possible value, the loop comes to one that can
      have a value. */
  predicate MeetsName(s: string, can: Names)
    decreases |s|
  {
    var r := FirstRef(s);
    r.Ref? && (can(NameOf(s, r)) || MeetsName(Erased(s), can))
  }

  function FirstName(s: string, can: Names): string
    requires MeetsName(s, can)
    decreases |s|
  {
    var r := FirstRef(s);
    if can(NameOf(s, r)) then NameOf(s, r) else FirstName(Erased(s), can)
  }

  lemma SpelledOut(s: string, a: nat, b: nat)
    requires a + 2 <= b < |s| && s[a] == '$' && s[a + 1] == '{' && s[b] == '}'
    ensures s[a..b + 1] == "${" + s[a + 2..b] + "}"
  {
    var ref, want := s[a..b + 1], "${" + s[a + 2..b] + "}";
    assert |ref| == |want|;
    forall k | 0 <= k < |ref| ensures ref[k] == want[k] {
      if 2 <= k < |ref| - 1 { assert want[k] == s[a + 2..b][k - 2]; }
    }
  }

  lemma PutBack(s: string, env: Environment)
    requires var r := FirstRef(s); r.Ref? && env(NameOf(s, r)) == "${" + NameOf(s, r) + "}"
    ensures Step(s, env) == Some(s)
  {
    var r := FirstRef(s);
    SpelledOut(s, r.start, r.end);
    assert s[..r.start] + s[r.start..r.end + 1] + s[r.end + 1..] == s;
  }

  /** One variable that names itself is enough to keep the loop from ending. */
  lemma {:induction false} NeverStopsOnItself(s: string, env: Environment, can: Names, t: string, n: nat)
    requires MeetsName(s, can) && Only(env, can)
    requires var name := FirstName(s, can); env(name) == "${" + name + "}"
    ensures !StopsAt(s, env, t, n)
    decreases n
  {
    var r := FirstRef(s);
    if can(NameOf(s, r)) {
      PutBack(s, env);
      FixpointNeverStops(s, env, t, n);
    } else {
      assert Step(s, env).value == Erased(s);
      if n > 0 { NeverStopsOnItself(Erased(s), env, can, t, n - 1); }
    }
  }

  lemma NamesItself(s: string, env: Environment, can: Names)
    requires MeetsName(s, can) && Only(env, can)
    requires var name := FirstName(s, can); env(name) == "${" + name + "}"
    ensures !Halts(s, env)
  {
    forall t, n: nat ensures !StopsAt(s, env, t, n) { NeverStopsOnItself(s, env, can, t, n); }
  }

  lemma {:induction false} StopsUnnamed(s: string, env: Environment, can: Names) returns (t: string)
    requires !MeetsName(s, can) && Only(env, can)
    ensures StopsAt(s, env, t, |s|)
    decreases |s|
  {
    if FirstRef(s).NoRef? {
      t := s;
    } else {
      assert Step(s, env).value == Erased(s);
      t := StopsUnnamed(Erased(s), env, can);
      MoreTurns(Erased(s), env, t, |Erased(s)|, |s| - 1);
    }
  }

  /** The loop ends whatever the values are exactly on templates in which it meets no
      reference that can have a value. */
  lemma HaltsForAllValuesExactly(s: string, can: Names)
    ensures (forall env :: Only(env, can) ==> Halts(s, env)) <==> !MeetsName(s, can)
  {
    if MeetsName(s, can) {
      var name := FirstName(s, can);
      FirstNameCan(s, can);
      var env: Environment := n => if n == name then "${" + name + "}" else "";
      NamesItself(s, env, can);
    } else {
      forall env | Only(env, can) ensures Halts(s, env) {
        var t := StopsUnnamed(s, env, can);
      }
    }
  }

  lemma {:induction false} FirstNameCan(s: string, can: Names)
    requires MeetsName(s, can)
    ensures can(FirstName(s, can))
    decreases |s|
  {
    if !can(NameOf(s, FirstRef(s))) { FirstNameCan(Erased(s), can); }
  }

  ghost predicate HaltsAlwaysWithout(c: char, can: Names) {
    forall s, env :: Only(env, can) && NeverYields(env, c) ==> Halts(s, env)
  }

  /** A name as a reference can spell it. */
  predicate Spelled(name: string, can: Names) {
    can(name) && '}' !in name
  }

  /** When every name that can be spelled holds a character that no value holds, each
      turn uses one up, or shortens the text. */
  lemma {:induction false} HaltsWithoutNameChar(s: string, env: Environment, can: Names, c: char)
    returns (t: string, n: nat)
    requires Only(env, can) && NeverYields(env, c) && forall name :: Spelled(name, can) ==> c in name
    ensures StopsAt(s, env, t, n)
    decreases Count(s, c), |s|
  {
    if Step(s, env).None? {
      t, n := s, 0;
    } else {
      var r, next := FirstRef(s), Step(s, env).value;
      var a, ref, b := s[..r.start], s[r.start..r.end + 1], s[r.end + 1..];
      assert s == a + ref + b;
      if can(NameOf(s, r)) {
        assert Spelled(NameOf(s, r), can);
        assert c in ref by { NameInRef(s, r, c); }
        SpliceCounts(a, ref, b, ValueOf(s, r, env), c);
      } else {
        CountAdds(a + ref, b, c);
        CountAdds(a, ref, c);
        CountAdds(a, b, c);
        assert next == a + b;
      }
      t, n := HaltsWithoutNameChar(next, env, can, c);
      n := n + 1;
    }
  }

  lemma NameInRef(s: string, r: Reference, c: char)
    requires r.Ref? && r.start + 2 <= r.end < |s| && c in NameOf(s, r)
    ensures c in s[r.start..r.end + 1]
  {
    var k :| 0 <= k < |NameOf(s, r)| && NameOf(s, r)[k] == c;
    assert s[r.start..r.end + 1][k + 2] == c;
  }

  lemma SelfReferenceIsFirst(name: string)
    requires '}' !in name
    ensures var s := "${" + name + "}"; FirstRef(s) == Ref(0, |name| + 2) && NameOf(s, FirstRef(s)) == name
  {
    var s := "${" + name + "}";
    assert OpensAt(s, 0) && FindOpen(s) == 0;
    forall k | 0 <= k < |name| + 2 ensures s[k] != '}' {
      if k >= 2 { assert s[k] == name[k - 2]; }
    }
    assert s[|name| + 2] == '}';
  }

  /** Keeping one character out of all values makes the loop end on every template
      exactly when it is one of the three marks, or no reference to a name that can
      have a value can do without it. */
  lemma HaltsWithoutExactlyMarks(c: char, can: Names)
    ensures HaltsAlwaysWithout(c, can) <==> c in "${}" || forall name :: Spelled(name, can) ==> c in name
  {
    if c in "${}" {
      forall s, env | Only(env, can) && NeverYields(env, c) ensures Halts(s, env) {
        var t := HaltsWithoutMark(s, env, c);
      }
    } else if name :| Spelled(name, can) && c !in name {
      var s := "${" + name + "}";
      SelfReferenceIsFirst(name);
      var env: Environment := n => if n == name then s else "";
      NamesItself(s, env, can);
      assert Only(env, can) && NeverYields(env, c);
    } else {
      forall s, env | Only(env, can) && NeverYields(env, c) ensures Halts(s, env) {
        var t, n := HaltsWithoutNameChar(s, env, can, c);
      }
    }
  }

  // -------------------------------------------------------------- single pass

  /** Substitution in one pass from left to right; an unclosed tail stays. */
  function Pass(s: string, env: Environment): string {
    var r := FirstRef(s);
    if r.NoRef? then s else s[..r.start] + ValueOf(s, r, env) + Pass(s[r.end + 1..], env)
  }

  predicate EndsInDollar(p: string) {
    p != "" && p[|p| - 1] == '$'
  }

  /** Whether a '$' stands before place `i` of a text, given whether one stands before
      the text. */
  predicate DollarBefore(dollar: bool, s: string, i: nat)
    requires i <= |s|
  {
    if i == 0 then dollar else s[i - 1] == '$'
  }

  /** The '$' before the text makes a closed reference with it. */
  predicate Joins(dollar: bool, s: string) {
    dollar && s != "" && s[0] == '{' && '}' in s
  }

  /** Something that the pass leaves behind a '$' can become a reference: the value of
      a reference that can have one, or what follows references that have none. */
  predicate Collides(dollar: bool, s: string, can: Names)
    decreases |s|
  {
    var r := FirstRef(s);
    || Joins(dollar, s)
    || (r.Ref?
        && var before := DollarBefore(dollar, s, r.start);
           if can(NameOf(s, r)) then before || Collides(false, Tail(s), can) else Collides(before, Tail(s), can))
  }

  /** What the first reference and its value become. */
  function Head(s: string, env: Environment): string
    requires FirstRef(s).Ref?
  {
    s[..FirstRef(s).start] + ValueOf(s, FirstRef(s), env)
  }

  function Tail(s: string): string
    requires FirstRef(s).Ref?
  {
    s[FirstRef(s).end + 1..]
  }

  lemma {:induction false} CollidesSooner(s: string, can: Names)
    ensures Collides(false, s, can) ==> Collides(true, s, can)
    decreases |s|
  {
    if FirstRef(s).Ref? { CollidesSooner(Tail(s), can); }
  }

  /** Rewritten text, with no reference in it. */
  ghost predicate Done(p: string) {
    forall i: nat :: !OpensAt(p, i)
  }

  /** The end of a rewritten text and the beginning of the next do not open one. */
  predicate Apart(p: string, s: string) {
    !(EndsInDollar(p) && s != "" && s[0] == '{')
  }

  lemma OpenAfterDone(p: string, s: string)
    requires Done(p) && Apart(p, s)
    ensures forall i: nat :: OpensAt(p + s, i) <==> i >= |p| && OpensAt(s, i - |p|)
    ensures FindOpen(p + s) == |p| + FindOpen(s)
  {
    forall i: nat ensures OpensAt(p + s, i) <==> i >= |p| && OpensAt(s, i - |p|) {
      if i < |p| { assert !OpensAt(p, i); }
    }
    assert FindOpen(s) < |s| ==> OpensAt(p + s, |p| + FindOpen(s));
  }

  lemma {:induction false} CloseAfterPrefix(p: string, s: string, from: nat)
    requires from <= |s|
    ensures FindClose(p + s, |p| + from) == |p| + FindClose(s, from)
    decreases |s| - from
  {
    if from < |s| && s[from] != '}' { CloseAfterPrefix(p, s, from + 1); }
  }

  lemma RefAfterDone(p: string, s: string)
    requires Done(p) && Apart(p, s)
    ensures var r := FirstRef(s);
      FirstRef(p + s) == if r.NoRef? then NoRef else Ref(|p| + r.start, |p| + r.end)
  {
    OpenAfterDone(p, s);
    var start := FindOpen(s);
    if start < |s| { CloseAfterPrefix(p, s, start); }
  }

  lemma RefAtJoin(p: string, s: string)
    requires Done(p) && !Apart(p, s)
    ensures FirstRef(p + s) == if '}' in s then Ref(|p| - 1, |p| + FindClose(s, 0)) else NoRef
    ensures '}' in s <==> FindClose(s, 0) < |s|
  {
    var whole := p + s;
    assert OpensAt(whole, |p| - 1);
    forall i: nat | i < |p| - 1 ensures !OpensAt(whole, i) { assert !OpensAt(p, i); }
    CloseAfterPrefix(p, s, 0);
    assert FindClose(whole, |p| - 1) == FindClose(whole, |p|);
  }

  lemma SlicesBehind(p: string, s: string, a: nat, b: nat)
    requires a + 2 <= b < |s|
    ensures (p + s)[|p| + a + 2..|p| + b] == s[a + 2..b]
    ensures (p + s)[..|p| + a] == p + s[..a]
    ensures (p + s)[|p| + b + 1..] == s[b + 1..]
  {}

  lemma StepBehind(p: string, s: string, env: Environment)
    requires FirstRef(s).Ref? && FirstRef(p + s) == Ref(|p| + FirstRef(s).start, |p| + FirstRef(s).end)
    ensures Step(p + s, env) == Some((p + Head(s, env)) + Tail(s))
  {
    var r := FirstRef(s);
    SlicesBehind(p, s, r.start, r.end);
    Regroup(p, s[..r.start], ValueOf(s, r, env));
  }

  lemma StepAfterDone(p: string, s: string, env: Environment)
    requires Done(p) && Apart(p, s) && FirstRef(s).Ref?
    ensures Step(p + s, env) == Some((p + Head(s, env)) + Tail(s))
  {
    RefAfterDone(p, s);
    StepBehind(p, s, env);
  }

  /** A value without '$' does not open a reference, unless a '$' stands before it. */
  lemma DoneGrows(p: string, s: string, env: Environment)
    requires Done(p) && Apart(p, s) && NeverYields(env, '$') && FirstRef(s).Ref?
    requires ValueOf(s, FirstRef(s), env) == "" || !DollarBefore(EndsInDollar(p), s, FirstRef(s).start)
    ensures Done(p + Head(s, env))
    ensures EndsInDollar(p + Head(s, env))
            <==> ValueOf(s, FirstRef(s), env) == "" && DollarBefore(EndsInDollar(p), s, FirstRef(s).start)
  {
    var start, v := FirstRef(s).start, ValueOf(s, FirstRef(s), env);
    var q := p + (s[..start] + v);
    forall i: nat ensures !OpensAt(q, i) {
      if i < |p| { assert !OpensAt(p, i); } else if i < |p| + start { assert !OpensAt(s, i - |p|); }
    }
  }

  /** From a rewritten prefix on, the rescanning loop does what the pass does. */
  lemma {:induction false} RescanIsPass(p: string, s: string, env: Environment, can: Names)
    requires Done(p) && Only(env, can) && NeverYields(env, '$') && !Collides(EndsInDollar(p), s, can)
    ensures StopsAt(p + s, env, p + Pass(s, env), |s|)
    decreases |s|
  {
    if !Apart(p, s) {
      RefAtJoin(p, s);
    } else if FirstRef(s).NoRef? {
      RefAfterDone(p, s);
    } else {
      var q, tail := p + Head(s, env), Tail(s);
      StepAfterDone(p, s, env);
      DoneGrows(p, s, env);
      CollidesSooner(tail, can);
      RescanIsPass(q, tail, env, can);
      Regroup(p, Head(s, env), Pass(tail, env));
      OneMoreTurn(p + s, q + tail, env, p + Pass(s, env), |tail|, |s|);
    }
  }

  lemma OneMoreTurn(s: string, next: string, env: Environment, t: string, n: nat, m: nat)
    requires Step(s, env) == Some(next) && StopsAt(next, env, t, n) && n < m
    ensures StopsAt(s, env, t, m)
  {
    MoreTurns(next, env, t, n, m - 1);
  }

  ghost predicate HasRef(s: string) {
    exists i: nat, j: nat :: ClosedRef(s, i, j)
  }

  lemma BracesAfterDollar(a: string, b: string)
    requires EndsInDollar(a)
    ensures HasRef(a + "{}" + b)
  {
    assert ClosedRef(a + "{}" + b, |a| - 1, |a| + 1);
  }

  /** A reference that can have a value comes right after a '$', or after references
      that cannot and that come right after one. */
  predicate ValueAfterDollar(dollar: bool, s: string, can: Names)
    decreases |s|
  {
    var r := FirstRef(s);
    r.Ref?
    && var before := DollarBefore(dollar, s, r.start);
       if can(NameOf(s, r)) then before || ValueAfterDollar(false, Tail(s), can)
       else ValueAfterDollar(before, Tail(s), can)
  }

  /** A '{' with a '}' later on comes after references that come right after a '$'. */
  predicate BraceAfterDollar(dollar: bool, s: string, can: Names)
    decreases |s|
  {
    var r := FirstRef(s);
    || Joins(dollar, s)
    || (r.Ref?
        && BraceAfterDollar(!can(NameOf(s, r)) && DollarBefore(dollar, s, r.start), Tail(s), can))
  }

  lemma {:induction false} CollidesEitherWay(dollar: bool, s: string, can: Names)
    requires Collides(dollar, s, can)
    ensures ValueAfterDollar(dollar, s, can) || BraceAfterDollar(dollar, s, can)
    decreases |s|
  {
    if !Joins(dollar, s) {
      var r := FirstRef(s);
      var before := DollarBefore(dollar, s, r.start);
      if can(NameOf(s, r)) {
        if !before { CollidesEitherWay(false, Tail(s), can); }
      } else {
        CollidesEitherWay(before, Tail(s), can);
      }
    }
  }

  /** With every possible value "{}", the pass leaves a reference. */
  lemma {:induction false} PassLeavesRef(a: string, dollar: bool, s: string, env: Environment, can: Names)
    requires ValueAfterDollar(dollar, s, can) && (dollar ==> EndsInDollar(a))
    requires forall name :: env(name) == if can(name) then "{}" else ""
    ensures HasRef(a + Pass(s, env))
    decreases |s|
  {
    var r := FirstRef(s);
    var before, v := s[..r.start], ValueOf(s, r, env);
    Shift(a, before, v, Pass(Tail(s), env));
    if can(NameOf(s, r)) && DollarBefore(dollar, s, r.start) {
      DollarLasts(a, dollar, s, "");
      BracesAfterDollar(a + before, Pass(Tail(s), env));
    } else {
      if v == "" { DollarLasts(a, dollar, s, v); }
      PassLeavesRef(a + before + v, v == "" && DollarBefore(dollar, s, r.start), Tail(s), env, can);
    }
  }

  lemma DollarLasts(a: string, dollar: bool, s: string, v: string)
    requires FirstRef(s).Ref? && (dollar ==> EndsInDollar(a)) && v == ""
    ensures var before := s[..FirstRef(s).start];
      DollarBefore(dollar, s, |before|) ==> EndsInDollar(a + before) && EndsInDollar(a + before + v)
  {
    var before := s[..FirstRef(s).start];
    assert a + before + v == a + before;
    if before != "" { assert (a + before)[|a + before| - 1] == before[|before| - 1]; }
  }

  ghost predicate AllEmpty(env: Environment) {
    forall name :: env(name) == ""
  }

  lemma {:induction false} BraceSooner(s: string, can: Names)
    ensures BraceAfterDollar(false, s, can) ==> BraceAfterDollar(true, s, can)
    decreases |s|
  {
    if FirstRef(s).Ref? { BraceSooner(Tail(s), can); }
  }

  lemma PassFrom(s: string, r: Reference, env: Environment, a: string, name: string, b: string)
    requires FirstRef(s) == r && r.Ref?
    requires a == s[..r.start] && name == s[r.start + 2..r.end] && b == s[r.end + 1..]
    ensures Pass(s, env) == a + env(name) + Pass(b, env)
  {}

  lemma PassFromBehind(p: string, s: string, r: Reference, env: Environment, a: string, name: string, b: string)
    requires r.Ref? && FirstRef(s) == r && FirstRef(p + s) == Ref(|p| + r.start, |p| + r.end)
    requires a == s[..r.start] && name == s[r.start + 2..r.end] && b == s[r.end + 1..]
    ensures Pass(p + s, env) == p + a + env(name) + Pass(b, env)
  {
    SlicesBehind(p, s, r.start, r.end);
    PassFrom(p + s, Ref(|p| + r.start, |p| + r.end), env, p + a, name, b);
  }

  lemma PassKeeps(s: string, env: Environment)
    requires FirstRef(s).NoRef?
    ensures Pass(s, env) == s
  {}

  lemma PassBehindRef(p: string, s: string, r: Reference, env: Environment)
    requires r.Ref? && FirstRef(s) == r && FirstRef(p + s) == Ref(|p| + r.start, |p| + r.end)
    ensures Pass(p + s, env) == p + Pass(s, env)
  {
    var a, name, b := s[..r.start], s[r.start + 2..r.end], s[r.end + 1..];
    PassFrom(s, r, env, a, name, b);
    PassFromBehind(p, s, r, env, a, name, b);
    Shift(p, a, env(name), Pass(b, env));
  }

  lemma PassBehind(p: string, s: string, env: Environment)
    requires Done(p) && Apart(p, s)
    ensures Pass(p + s, env) == p + Pass(s, env)
  {
    RefAfterDone(p, s);
    if FirstRef(s).Ref? {
      PassBehindRef(p, s, FirstRef(s), env);
    } else {
      PassKeeps(s, env);
      PassKeeps(p + s, env);
    }
  }

  lemma Shift(p: string, a: string, v: string, b: string)
    ensures p + a + v + b == p + (a + v + b)
  {}

  /** Without values, cutting a text off after its first '}' does not make what the
      pass leaves longer. */
  lemma CutPassesShorter(s: string, env: Environment)
    requires AllEmpty(env) && '}' in s
    ensures FindClose(s, 0) < |s| && |Pass(s[FindClose(s, 0) + 1..], env)| <= |Pass(s, env)|
  {
    var j := FindClose(s, 0);
    assert j < |s|;
    var rest, p := s[j + 1..], s[..j + 1];
    if FindOpen(s) <= j {
      assert FindOpen(s) < |s| && FindClose(s, FindOpen(s)) == j;
      assert rest == Tail(s);
    } else {
      ClosedBefore(s, j);
      PassBehind(p, rest, env);
      assert s == p + rest;
    }
  }

  lemma ClosedBefore(s: string, j: nat)
    requires j < |s| && s[j] == '}' && FindOpen(s) > j
    ensures Done(s[..j + 1]) && !EndsInDollar(s[..j + 1])
  {
    var p := s[..j + 1];
    forall i: nat ensures !OpensAt(p, i) {
      if i + 1 < |p| { assert !OpensAt(s, i); }
    }
  }

  lemma StepAtJoin(p: string, s: string, env: Environment)
    requires Done(p) && !Apart(p, s) && '}' in s && AllEmpty(env)
    ensures var q := p[..|p| - 1]; Done(q) && Step(p + s, env) == Some(q + s[FindClose(s, 0) + 1..])
  {
    RefAtJoin(p, s);
    var q := p[..|p| - 1];
    assert (p + s)[..|p| - 1] == q && (p + s)[|p| + FindClose(s, 0) + 1..] == s[FindClose(s, 0) + 1..];
    assert q + "" == q;
    forall i: nat ensures !OpensAt(q, i) { assert !OpensAt(p, i); }
  }

  lemma StepApart(p: string, s: string, env: Environment, can: Names)
    requires Done(p) && Apart(p, s) && FirstRef(s).Ref? && AllEmpty(env)
    ensures var q := p + Head(s, env);
      && Done(q) && Step(p + s, env) == Some(q + Tail(s))
      && |q| + |Pass(Tail(s), env)| == |p| + |Pass(s, env)|
      && (BraceAfterDollar(EndsInDollar(p), s, can) ==> BraceAfterDollar(EndsInDollar(q), Tail(s), can))
  {
    StepAfterDone(p, s, env);
    DoneGrows(p, s, env);
    BraceSooner(Tail(s), can);
  }

  lemma OneTurnLess(s: string, next: string, env: Environment, t: string, n: nat)
    requires Step(s, env) == Some(next) && StopsAt(s, env, t, n)
    ensures n > 0 && StopsAt(next, env, t, n - 1)
  {}

  /** A text is no longer than what the pass leaves behind `p`, and shorter where a
      '{' comes after a '$'. */
  ghost predicate LeavesLess(p: string, s: string, env: Environment, can: Names, t: string) {
    && |t| <= |p| + |Pass(s, env)|
    && (BraceAfterDollar(EndsInDollar(p), s, can) ==> |t| < |p| + |Pass(s, env)|)
  }

  lemma LessAtJoin(p: string, s: string, env: Environment, can: Names, t: string)
    requires !Apart(p, s) && '}' in s && AllEmpty(env)
    requires LeavesLess(p[..|p| - 1], s[FindClose(s, 0) + 1..], env, can, t)
    ensures LeavesLess(p, s, env, can, t)
  {
    CutPassesShorter(s, env);
  }

  lemma LessApart(p: string, s: string, env: Environment, can: Names, t: string)
    requires Done(p) && Apart(p, s) && FirstRef(s).Ref? && AllEmpty(env)
    requires LeavesLess(p + Head(s, env), Tail(s), env, can, t)
    ensures LeavesLess(p, s, env, can, t)
  {
    StepApart(p, s, env, can);
  }

  lemma LessAtTheEnd(p: string, s: string, env: Environment, can: Names, t: string, n: nat)
    requires Done(p) && StopsAt(p + s, env, t, n)
    requires if Apart(p, s) then FirstRef(s).NoRef? else '}' !in s
    ensures LeavesLess(p, s, env, can, t)
  {
    if Apart(p, s) { RefAfterDone(p, s); } else { RefAtJoin(p, s); }
  }

  /** Without values, the loop leaves no more than the pass does, and less where a
      '{' comes after a '$'. */
  lemma {:induction false} LoopLeavesLess(p: string, s: string, env: Environment, can: Names, t: string, n: nat)
    requires Done(p) && AllEmpty(env) && StopsAt(p + s, env, t, n)
    ensures LeavesLess(p, s, env, can, t)
    decreases |s|
  {
    if !Apart(p, s) && '}' in s {
      StepAtJoin(p, s, env);
      var q, rest := p[..|p| - 1], s[FindClose(s, 0) + 1..];
      OneTurnLess(p + s, q + rest, env, t, n);
      LoopLeavesLess(q, rest, env, can, t, n - 1);
      LessAtJoin(p, s, env, can, t);
    } else if Apart(p, s) && FirstRef(s).Ref? {
      StepApart(p, s, env, can);
      var q := p + Head(s, env);
      OneTurnLess(p + s, q + Tail(s), env, t, n);
      LoopLeavesLess(q, Tail(s), env, can, t, n - 1);
      LessApart(p, s, env, can, t);
    } else {
      LessAtTheEnd(p, s, env, can, t, n);
    }
  }

  ghost predicate RescanAgrees(s: string, env: Environment) {
    forall t, n: nat :: StopsAt(s, env, t, n) ==> t == Pass(s, env)
  }

  ghost predicate AgreesAlways(s: string, can: Names) {
    forall env :: Only(env, can) && NeverYields(env, '$') ==> Halts(s, env) && RescanAgrees(s, env)
  }

  lemma Refutes(s: string, env: Environment, can: Names, t: string, n: nat)
    requires Only(env, can) && NeverYields(env, '$') && StopsAt(s, env, t, n) && t != Pass(s, env)
    ensures !AgreesAlways(s, can)
  {
    assert !RescanAgrees(s, env);
  }

  lemma StopHasNoRef(s: string, env: Environment, t: string, n: nat)
    requires StopsAt(s, env, t, n)
    ensures !HasRef(t)
  {
    StopIsUnique(s, env, t, n, t, n);
    StopsExactlyWithoutRefs(t, env);
  }

  lemma LoopMissesPass(s: string, env: Environment, can: Names, t: string, n: nat)
    requires ValueAfterDollar(false, s, can) && StopsAt(s, env, t, n)
    requires forall name :: env(name) == if can(name) then "{}" else ""
    ensures t != Pass(s, env)
  {
    PassLeavesRef("", false, s, env, can);
    assert "" + Pass(s, env) == Pass(s, env);
    StopHasNoRef(s, env, t, n);
  }

  lemma DiffersForBraces(s: string, can: Names)
    requires ValueAfterDollar(false, s, can)
    ensures !AgreesAlways(s, can)
  {
    var env: Environment := name => if can(name) then "{}" else "";
    var t := HaltsWithoutMark(s, env, '$');
    LoopMissesPass(s, env, can, t, Count(s, '$'));
    Refutes(s, env, can, t, Count(s, '$'));
  }

  lemma DiffersForNothing(s: string, can: Names)
    requires BraceAfterDollar(false, s, can)
    ensures !AgreesAlways(s, can)
  {
    var env: Environment := name => "";
    var t := HaltsWithoutMark(s, env, '$');
    assert "" + s == s;
    LoopLeavesLess("", s, env, can, t, Count(s, '$'));
    Refutes(s, env, can, t, Count(s, '$'));
  }

  /** For values without '$' the rescanning loop always ends; and it ends in what a
      single pass gives, whatever the values, exactly when nothing that the pass
      leaves behind a '$' can become a reference. */
  lemma RescanIsPassExactly(s: string, can: Names)
    ensures AgreesAlways(s, can) <==> !Collides(false, s, can)
  {
    if Collides(false, s, can) {
      CollidesEitherWay(false, s, can);
      if ValueAfterDollar(false, s, can) { DiffersForBraces(s, can); } else { DiffersForNothing(s, can); }
    } else {
      forall env | Only(env, can) && NeverYields(env, '$') ensures Halts(s, env) && RescanAgrees(s, env) {
        RescanIsPass("", s, env, can);
        assert "" + s == s && "" + Pass(s, env) == Pass(s, env);
        assert StopsAt(s, env, Pass(s, env), |s|);
        forall t, n: nat | StopsAt(s, env, t, n) ensures t == Pass(s, env) {
          StopIsUnique(s, env, t, n, Pass(s, env), |s|);
        }
      }
    }
  }

  /** "$${A}" where A stands for "{}": one pass gives "${}", which the loop scans
      again and erases. */
  lemma DollarMakesReference(env: Environment)
    requires env("A") == "{}" && env("") == ""
    ensures Pass("$${A}", env) == "${}" && StopsAt("$${A}", env, "", 2) && !RescanAgrees("$${A}", env)
  {
    var s, ref := "$${A}", "${}";
    assert OpensAt(s, 1) && !OpensAt(s, 0);
    assert FirstRef(s) == Ref(1, 4) && NameOf(s, Ref(1, 4)) == "A";
    assert s[5..] == "" && Pass("", env) == "";
    assert s[..1] + "{}" + s[5..] == ref;
    assert OpensAt(ref, 0) && FirstRef(ref) == Ref(0, 2) && NameOf(ref, Ref(0, 2)) == "";
    assert ref[..0] + "" + ref[3..] == "";
    assert Step(s, env) == Some(ref) && Step(ref, env) == Some("") && Step("", env) == None;
    assert StopsAt("", env, "", 0) && StopsAt(ref, env, "", 1) && StopsAt(s, env, "", 2);
  }

  lemma FirstRefIs(s: string, start: nat, end: nat)
    requires OpensAt(s, start) && start + 2 <= end < |s| && s[end] == '}'
    requires (forall i: nat :: i < start ==> !OpensAt(s, i)) && forall k :: start <= k < end ==> s[k] != '}'
    ensures FirstRef(s) == Ref(start, end)
  {}

  lemma NamelessReferenceEnds(can: Names)
    requires !can("")
    ensures !MeetsName("${}", can)
  {
    FirstRefIs("${}", 0, 2);
    assert "${}"[2..2] == "" && Erased("${}") == "";
  }

  lemma NamelessReferenceAgrees(can: Names)
    requires !can("")
    ensures !Collides(false, "$${}", can)
  {
    FirstRefIs("$${}", 1, 3);
    assert "$${}"[3..3] == "" && Tail("$${}") == "";
  }

  lemma BracesBehindNamelessCollide(can: Names)
    requires !can("")
    ensures Collides(false, "$${}{}", can)
  {
    FirstRefIs("$${}{}", 1, 3);
    assert "$${}{}"[3..3] == "" && Tail("$${}{}") == "{}" && "{}"[1] == '}';
  }

  /** References without a possible value: "${}" always ends and "$${}" agrees, but
      "$${}{}" does not, though no name in it can have a value. */
  lemma NamelessReferences(can: Names)
    requires !can("")
    ensures !MeetsName("${}", can) && !Collides(false, "$${}", can) && Collides(false, "$${}{}", can)
  {
    NamelessReferenceEnds(can);
    NamelessReferenceAgrees(can);
    BracesBehindNamelessCollide(can);
  }
}
