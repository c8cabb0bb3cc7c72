/** Streaming output of one turn: text deltas written as they come, each new line
    indented, and so what follows a tool call, whose own lines go to the standard
    error stream. */
module Indenter {
  import opened Sequences

  datatype Msg = Token(delta: string) | ToolCall | Other | Finished | Failed(reason: string)

  /** What reaches the writer: a character of the reply, or a tool marker, which is
      written elsewhere but starts a line. */
  datatype Item = Chr(c: char) | Marker

  datatype Line = Line(out: string, atStart: bool)

  function Spaces(n: nat): (s: string)
    ensures |s| == n && forall i :: 0 <= i < n ==> s[i] == ' '
  {
    seq(n, _ => ' ')
  }

  function Feed(s: Line, n: nat, item: Item): Line {
    if item.Marker? then s.(atStart := true)
    else if item.c == '\n' then Line(s.out + "\n", true)
    else if s.atStart && n > 0 then Line(s.out + (Spaces(n) + [item.c]), false)
    else s.(out := s.out + [item.c])
  }

  function FeedAll(s: Line, n: nat, items: seq<Item>): Line {
    if items == [] then s else Feed(FeedAll(s, n, items[..|items| - 1]), n, items[|items| - 1])
  }

  lemma {:induction false} FeedInParts(s: Line, n: nat, a: seq<Item>, b: seq<Item>)
    ensures FeedAll(s, n, a + b) == FeedAll(FeedAll(s, n, a), n, b)
  {
    if b == [] {
      assert a + b == a;
    } else {
      FeedInParts(s, n, a, b[..|b| - 1]);
      assert (a + b)[..|a + b| - 1] == a + b[..|b| - 1];
    }
  }

  function Chars(t: string): seq<Item> {
    seq(|t|, i requires 0 <= i < |t| => Chr(t[i]))
  }

  function ItemsOf(m: Msg): seq<Item> {
    match m
    case Token(delta) => Chars(delta)
    case ToolCall => [Marker]
    case Other => []
    case Finished => []
    case Failed(_) => []
  }

  function Items(ms: seq<Msg>): seq<Item> {
    if ms == [] then [] else Items(ms[..|ms| - 1]) + ItemsOf(ms[|ms| - 1])
  }

  predicate Ends(m: Msg) {
    m.Finished? || m.Failed?
  }

  /** The messages read before the turn ends or the connection does. */
  function Heard(ms: seq<Msg>): (h: seq<Msg>)
    ensures |h| <= |ms|
  {
    if ms == [] || Ends(ms[0]) then [] else [ms[0]] + Heard(ms[1..])
  }

  // --------------------------------------------------------------------- lines

  /** Splitting at newlines; never empty. */
  function Lines(t: string): (ls: seq<string>)
    ensures |ls| > 0
  {
    if t == "" then [""]
    else
      var ls, c := Lines(t[..|t| - 1]), t[|t| - 1];
      if c == '\n' then ls + [""] else ls[..|ls| - 1] + [ls[|ls| - 1] + [c]]
  }

  function Join(ls: seq<string>): string
    requires |ls| > 0
  {
    if |ls| == 1 then ls[0] else Join(ls[..|ls| - 1]) + ("\n" + ls[|ls| - 1])
  }

  function Joined(ls: seq<string>): string {
    if ls == [] then "" else Join(ls)
  }

  lemma JoinedOneMore(ls: seq<string>, i: nat)
    requires i < |ls|
    ensures Joined(ls[..i + 1]) == (if i > 0 then Joined(ls[..i]) + "\n" else Joined(ls[..i])) + ls[i]
  {
    assert ls[..i + 1][..i] == ls[..i];
    if i > 0 {
      assert Join(ls[..i]) + ("\n" + ls[i]) == Join(ls[..i]) + "\n" + ls[i];
    }
  }

  predicate OneLine(l: string) {
    '\n' !in l
  }

  lemma {:induction false} LinesAreLines(t: string)
    ensures forall i :: 0 <= i < |Lines(t)| ==> OneLine(Lines(t)[i])
    ensures Join(Lines(t)) == t
  {
    if t != "" {
      var most, c := t[..|t| - 1], t[|t| - 1];
      LinesAreLines(most);
      var ls := Lines(most);
      assert t == most + [c];
      if c == '\n' {
        assert (ls + [""])[..|ls|] == ls;
      } else {
        JoinExtends(ls, [c]);
      }
    }
  }

  lemma JoinExtends(ls: seq<string>, more: string)
    requires |ls| > 0
    ensures Join(ls[..|ls| - 1] + [ls[|ls| - 1] + more]) == Join(ls) + more
  {
    var front, l := ls[..|ls| - 1], ls[|ls| - 1];
    var longer := front + [l + more];
    assert longer[..|ls| - 1] == front;
    if front != [] {
      Regroup("\n", l, more);
      Regroup(Join(front), "\n" + l, more);
    }
  }

  // ---------------------------------------------------------------- the writer

  class Turn {
    const indent: nat
    var out: string
    var atStart: bool
    var hadToken: bool

    constructor (indent: nat)
      ensures this.indent == indent && Value() == Line("", true) && !hadToken
    {
      this.indent, out, atStart, hadToken := indent, "", true, false;
    }

    function Value(): Line
      reads this
    {
      Line(out, atStart)
    }

    method WriteSegment(segment: string)
      modifies this
      ensures Value() == Wrote(old(Value()), indent, segment) && hadToken == old(hadToken)
    {
      if segment == "" { return; }
      if atStart && indent > 0 {
        out := out + Spaces(indent);
        atStart := false;
      }
      out := out + segment;
    }

    method WriteDelta(delta: string)
      modifies this
      ensures Value() == FeedAll(old(Value()), indent, Chars(delta)) && hadToken
    {
      hadToken := true;
      var segments := Lines(delta);
      LinesAreLines(delta);
      ghost var start := Value();
      assert Chars("") == [];
      for i := 0 to |segments|
        invariant Value() == FeedAll(start, indent, Chars(Joined(segments[..i]))) && hadToken
      {
        ghost var written := Joined(segments[..i]);
        if i > 0 {
          FeedChar(start, indent, written, '\n');
          assert written + ['\n'] == written + "\n";
          written := written + "\n";
          out := out + "\n";
          atStart := true;
        }
        FeedSegment(start, indent, written, segments[i]);
        JoinedOneMore(segments, i);
        WriteSegment(segments[i]);
      }
      assert segments[..|segments|] == segments;
    }

    method Handle(m: Msg)
      modifies this
      ensures Value() == FeedAll(old(Value()), indent, ItemsOf(m)) && hadToken == (old(hadToken) || m.Token?)
    {
      if m.Token? { WriteDelta(m.delta); }
      if m.ToolCall? {
        assert [Marker][..0] == [];
        atStart := true;
      }
    }

    /** The stream is that of the messages heard, with a newline after any text. */
    method RunTurn(ms: seq<Msg>) returns (ok: bool)
      requires Value() == Line("", true) && !hadToken
      modifies this
      ensures out == Body(indent, Heard(ms)) + Closing(Heard(ms))
      ensures |out| == |Body(indent, Heard(ms))| + if exists m :: m in Heard(ms) && m.Token? then 1 else 0
      ensures (exists m :: m in Heard(ms) && m.Token?) ==> out[|out| - 1] == '\n'
      ensures ok <==> |Heard(ms)| < |ms| && ms[|Heard(ms)|].Finished?
    {
      ok := false;
      ghost var heard := Heard(ms);
      var i := 0;
      while i < |ms| && !Ends(ms[i])
        invariant 0 <= i <= |heard|
        invariant Value() == Fed(indent, heard[..i]) && (hadToken <==> HasToken(heard[..i]))
      {
        HeardAt(ms, i);
        FedOneMore(indent, heard, i);
        Handle(ms[i]);
        i := i + 1;
      }
      if i < |ms| { HeardAt(ms, i); }
      assert heard[..i] == heard;
      ok := i < |ms| && ms[i].Finished?;
      HasTokenSays(heard);
      if hadToken { out := out + "\n"; }
    }
  }

  function Closing(ms: seq<Msg>): string {
    if HasToken(ms) then "\n" else ""
  }

  function Fed(n: nat, ms: seq<Msg>): Line {
    FeedAll(Line("", true), n, Items(ms))
  }

  function Body(n: nat, ms: seq<Msg>): string {
    Fed(n, ms).out
  }

  predicate HasToken(ms: seq<Msg>) {
    ms != [] && (ms[|ms| - 1].Token? || HasToken(ms[..|ms| - 1]))
  }

  lemma {:induction false} HasTokenSays(ms: seq<Msg>)
    ensures HasToken(ms) <==> exists m :: m in ms && m.Token?
  {
    if ms != [] {
      HasTokenSays(ms[..|ms| - 1]);
      assert ms == ms[..|ms| - 1] + [ms[|ms| - 1]];
    }
  }

  /** The messages heard are those before the first that ends the turn. */
  lemma {:induction false} HeardSays(ms: seq<Msg>)
    ensures Heard(ms) <= ms && forall m :: m in Heard(ms) ==> !m.Finished? && !m.Failed?
    ensures |Heard(ms)| < |ms| ==> ms[|Heard(ms)|].Finished? || ms[|Heard(ms)|].Failed?
  {
    if ms != [] && !Ends(ms[0]) {
      HeardSays(ms[1..]);
      assert ms == [ms[0]] + ms[1..];
    }
  }

  /** A tool call in the middle of a line makes what follows start with an indentation. */
  lemma ToolCallIndentsAgain(n: nat)
    ensures Body(n, [Token("a"), ToolCall, Token("b")]) == Spaces(n) + "a" + (Spaces(n) + "b")
  {
    var ms := [Token("a"), ToolCall, Token("b")];
    assert ms[..2] == [Token("a"), ToolCall] && ms[..2][..1] == [Token("a")] && [Token("a")][..0] == [];
    assert Chars("a") == [Chr('a')] && Chars("b") == [Chr('b')];
    assert Items([Token("a")]) == [Chr('a')] && Items(ms[..2]) == [Chr('a'), Marker];
    var items := Items(ms);
    assert items == [Chr('a'), Marker] + [Chr('b')] == [Chr('a'), Marker, Chr('b')];
    assert items[..2] == [Chr('a'), Marker] && items[..2][..1] == [Chr('a')] && [Chr('a')][..0] == [];
    var start := Line("", true);
    assert FeedAll(start, n, []) == start;
    assert FeedAll(start, n, [Chr('a')]) == Feed(start, n, Chr('a'));
    assert FeedAll(start, n, items[..2]) == Feed(Feed(start, n, Chr('a')), n, Marker);
    assert FeedAll(start, n, items) == Feed(Feed(Feed(start, n, Chr('a')), n, Marker), n, Chr('b'));
  }

  lemma FedOneMore(n: nat, ms: seq<Msg>, i: nat)
    requires i < |ms|
    ensures Fed(n, ms[..i + 1]) == FeedAll(Fed(n, ms[..i]), n, ItemsOf(ms[i]))
    ensures HasToken(ms[..i + 1]) <==> HasToken(ms[..i]) || ms[i].Token?
  {
    assert ms[..i + 1][..i] == ms[..i];
    FeedInParts(Line("", true), n, Items(ms[..i]), ItemsOf(ms[i]));
  }

  function Wrote(s: Line, n: nat, segment: string): Line {
    if segment == "" then s
    else if s.atStart && n > 0 then Line(s.out + Spaces(n) + segment, false)
    else Line(s.out + segment, s.atStart)
  }

  lemma WroteOneMore(s: Line, n: nat, segment: string, c: char)
    requires c != '\n'
    ensures Wrote(s, n, segment + [c]) == Feed(Wrote(s, n, segment), n, Chr(c))
  {
    assert s.out + segment + [c] == s.out + (segment + [c]);
    assert s.out + Spaces(n) + segment + [c] == s.out + Spaces(n) + (segment + [c]);
    if segment == "" {
      assert segment + [c] == [c];
      assert s.out + (Spaces(n) + [c]) == s.out + Spaces(n) + [c];
    }
  }

  lemma {:induction false} FeedSegment(s: Line, n: nat, written: string, segment: string)
    requires OneLine(segment)
    ensures FeedAll(s, n, Chars(written + segment)) == Wrote(FeedAll(s, n, Chars(written)), n, segment)
  {
    if segment == "" {
      assert written + segment == written;
    } else {
      var most, c := segment[..|segment| - 1], segment[|segment| - 1];
      FeedSegment(s, n, written, most);
      WroteOneMore(FeedAll(s, n, Chars(written)), n, most, c);
      assert segment == most + [c];
      FeedChar(s, n, written + most, c);
      assert written + most + [c] == written + segment;
    }
  }

  lemma FeedChar(s: Line, n: nat, t: string, c: char)
    ensures FeedAll(s, n, Chars(t + [c])) == Feed(FeedAll(s, n, Chars(t)), n, Chr(c))
  {
    assert Chars(t + [c])[..|t|] == Chars(t);
  }

  lemma {:induction false} HeardAt(ms: seq<Msg>, i: nat)
    requires i < |ms| && i <= |Heard(ms)|
    ensures Ends(ms[i]) <==> i == |Heard(ms)|
    ensures i < |Heard(ms)| ==> Heard(ms)[i] == ms[i]
  {
    if i > 0 { HeardAt(ms[1..], i - 1); }
  }

  // ------------------------------------------------------- streamed and whole

  /** The text of the reply, markers left out. */
  function Text(items: seq<Item>): string {
    if items == [] then ""
    else
      var most, last := Text(items[..|items| - 1]), items[|items| - 1];
      if last.Marker? then most else most + [last.c]
  }

  /** A whole text with `n` spaces before every character that starts a line;
      `start` says whether the first one does. */
  function Indented(n: nat, t: string, start: bool): string {
    if t == "" then ""
    else if t[0] == '\n' then "\n" + Indented(n, t[1..], true)
    else (if start then Spaces(n) + [t[0]] else [t[0]]) + Indented(n, t[1..], false)
  }

  function Whole(n: nat, t: string): string {
    Indented(n, t, true)
  }

  predicate AtLineStart(t: string) {
    t == "" || t[|t| - 1] == '\n'
  }

  function Added(n: nat, start: bool, c: char): string {
    if c != '\n' && start then Spaces(n) + [c] else [c]
  }

  lemma {:induction false} IndentedOneMore(n: nat, t: string, start: bool, c: char)
    ensures Indented(n, t + [c], start)
         == Indented(n, t, start) + Added(n, if t == "" then start else AtLineStart(t), c)
  {
    if t == "" {
      assert (t + [c])[1..] == "";
    } else {
      IndentedOneMore(n, t[1..], t[0] == '\n', c);
      assert (t + [c])[1..] == t[1..] + [c];
      var rest, more := Indented(n, t[1..], t[0] == '\n'), Added(n, if t == "" then start else AtLineStart(t), c);
      Regroup("\n", rest, more);
      Regroup(Spaces(n) + [t[0]], rest, more);
      Regroup([t[0]], rest, more);
    }
  }

  /** The character at `k` goes on with a line that a tool marker interrupted. */
  predicate BreakAt(items: seq<Item>, k: nat)
    requires k < |items|
  {
    && items[k].Chr? && items[k].c != '\n'
    && k > 0 && items[k - 1].Marker? && !AtLineStart(Text(items[..k]))
  }

  function Breaks(items: seq<Item>): nat {
    if items == [] then 0
    else Breaks(items[..|items| - 1]) + if BreakAt(items, |items| - 1) then 1 else 0
  }

  predicate EndsInMarker(items: seq<Item>) {
    items != [] && items[|items| - 1].Marker?
  }

  function Streamed(n: nat, items: seq<Item>): Line {
    FeedAll(Line("", true), n, items)
  }

  /** Every break costs one indentation too many, and nothing else differs. */
  lemma {:induction false} StreamedLength(n: nat, items: seq<Item>)
    requires n > 0
    ensures Streamed(n, items).atStart <==> AtLineStart(Text(items)) || EndsInMarker(items)
    ensures |Streamed(n, items).out| == |Whole(n, Text(items))| + n * Breaks(items)
    ensures Breaks(items) == 0 ==> Streamed(n, items).out == Whole(n, Text(items))
  {
    if items != [] {
      var most, last := items[..|items| - 1], items[|items| - 1];
      StreamedLength(n, most);
      if last.Chr? {
        IndentedOneMore(n, Text(most), true, last.c);
        StreamedOne(n, most, last.c);
        assert BreakAt(items, |items| - 1) <==> last.c != '\n' && EndsInMarker(most) && !AtLineStart(Text(most));
        assert n * (Breaks(most) + 1) == n * Breaks(most) + n;
      }
    }
  }

  lemma StreamedOne(n: nat, items: seq<Item>, c: char)
    requires n > 0
    ensures var before, after := Streamed(n, items), Streamed(n, items + [Chr(c)]);
      && after.out == before.out + (if c != '\n' && before.atStart then Spaces(n) + [c] else [c])
      && (after.atStart <==> c == '\n')
  {
    assert (items + [Chr(c)])[..|items|] == items;
  }

  /** A turn's output is its text, indented line by line, exactly when nothing is
      indented or no tool call falls within a line. */
  lemma StreamIsWholeExactly(n: nat, items: seq<Item>)
    ensures Streamed(n, items).out == Whole(n, Text(items)) <==> n == 0 || Breaks(items) == 0
  {
    if n == 0 { StreamedPlain(items); } else {
      StreamedLength(n, items);
      assert Breaks(items) > 0 ==> n * Breaks(items) >= n;
    }
  }

  /** A tool call between two characters of one line indents the second again. */
  lemma MarkerWithinLine(n: nat)
    requires n > 0
    ensures Streamed(n, [Chr('a'), Marker, Chr('b')]).out != Whole(n, "ab")
  {
    var items := [Chr('a'), Marker, Chr('b')];
    assert items[..2] == [Chr('a'), Marker] && items[..2][..1] == [Chr('a')] && [Chr('a')][..0] == [];
    assert Text([Chr('a')]) == "a" && Text(items[..2]) == "a" && Text(items) == "a" + "b" == "ab";
    assert BreakAt(items, 2);
    StreamIsWholeExactly(n, items);
  }

  lemma {:induction false} StreamedPlain(items: seq<Item>)
    ensures Streamed(0, items).out == Text(items) == Whole(0, Text(items))
  {
    if items != [] {
      var most, last := items[..|items| - 1], items[|items| - 1];
      StreamedPlain(most);
      if last.Chr? { IndentedOneMore(0, Text(most), true, last.c); }
    }
  }

  // ------------------------------------------------------ without tool calls

  function TextOf(ms: seq<Msg>): string {
    if ms == [] then ""
    else TextOf(ms[..|ms| - 1]) + if ms[|ms| - 1].Token? then ms[|ms| - 1].delta else ""
  }

  lemma {:induction false} TextInParts(a: seq<Item>, b: seq<Item>)
    ensures Text(a + b) == Text(a) + Text(b)
  {
    if b == [] {
      assert a + b == a;
    } else {
      TextInParts(a, b[..|b| - 1]);
      assert (a + b)[..|a + b| - 1] == a + b[..|b| - 1];
    }
  }

  lemma {:induction false} TextOfChars(t: string)
    ensures Text(Chars(t)) == t
  {
    if t != "" {
      TextOfChars(t[..|t| - 1]);
      assert Chars(t)[..|t| - 1] == Chars(t[..|t| - 1]);
    }
  }

  lemma {:induction false} ItemsCarryText(ms: seq<Msg>)
    ensures Text(Items(ms)) == TextOf(ms)
  {
    if ms != [] {
      ItemsCarryText(ms[..|ms| - 1]);
      TextInParts(Items(ms[..|ms| - 1]), ItemsOf(ms[|ms| - 1]));
      if ms[|ms| - 1].Token? { TextOfChars(ms[|ms| - 1].delta); }
    }
  }

  lemma {:induction false} NoMarkers(ms: seq<Msg>)
    requires forall m :: m in ms ==> !m.ToolCall?
    ensures forall item :: item in Items(ms) ==> item.Chr?
  {
    if ms != [] { NoMarkers(ms[..|ms| - 1]); }
  }

  lemma {:induction false} NoBreaks(items: seq<Item>)
    requires forall item :: item in items ==> item.Chr?
    ensures Breaks(items) == 0
  {
    if items != [] {
      NoBreaks(items[..|items| - 1]);
      if |items| > 1 { assert items[|items| - 2] in items; }
    }
  }

  /** Without tool calls the output depends on the text alone, not on how it was
      cut into deltas. */
  lemma CutsDoNotMatter(n: nat, ms: seq<Msg>)
    requires forall m :: m in ms ==> !m.ToolCall?
    ensures Body(n, ms) == Whole(n, TextOf(ms))
  {
    NoMarkers(ms);
    NoBreaks(Items(ms));
    ItemsCarryText(ms);
    StreamIsWholeExactly(n, Items(ms));
  }

  // ------------------------------------------------------------- unindenting

  /** Drops `n` characters before every line that is not empty. */
  function Unindented(n: nat, t: string, start: bool): string {
    if t == "" then ""
    else if t[0] == '\n' then "\n" + Unindented(n, t[1..], true)
    else if start && |t| > n then [t[n]] + Unindented(n, t[n + 1..], false)
    else [t[0]] + Unindented(n, t[1..], false)
  }

  /** Taking the indentation away again gives the text back. */
  lemma {:induction false} UnindentRecovers(n: nat, t: string, start: bool)
    ensures Unindented(n, Indented(n, t, start), start) == t
  {
    if t != "" {
      UnindentRecovers(n, t[1..], t[0] == '\n');
      var rest := Indented(n, t[1..], t[0] == '\n');
      if t[0] == '\n' {
        assert ("\n" + rest)[1..] == rest;
      } else if start {
        var all := Spaces(n) + [t[0]] + rest;
        assert n > 0 ==> all[0] == ' ';
        assert all[n] == t[0] && all[n + 1..] == rest;
      } else {
        assert ([t[0]] + rest)[1..] == rest;
      }
    }
  }
}
