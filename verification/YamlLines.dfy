/**
 Which lines of a document the YAML reader keeps: a single pass over the lines,
 with a stack of the open levels, that stops exactly where the parser stops.
 */
module YamlLines {
  import opened Text
  import opened Wrappers
  import opened YamlBlock
  import opened YamlLayout

  /** What may be nested under the line above. */
  datatype Mode =
    | Closed                  // nothing: its value is complete
    | Empty                   // a block: nothing stands after its colon
    | Marked                  // a text: a block marker stands after its colon
    | InText(indent: nat)     // more of the text that began at this level
    | InItems(indent: nat)    // more items of the list at this level

  /** The levels of the mappings that are still open, outermost first. */
  datatype State = State(levels: seq<nat>, mode: Mode)

  /** Where a pass ends: lines it drops, none when it took them all, or a line with no colon. */
  datatype Ending = Dropped(lines: seq<Line>) | NoColon(at: seq<Line>)

  const START := State([], Empty)

  /** The open levels down to this one; none when it is not open. */
  function Cut(levels: seq<nat>, indent: nat): (open: seq<nat>)
    ensures open != [] <==> indent in levels
  {
    if levels == [] || levels[|levels| - 1] == indent then levels else Cut(levels[..|levels| - 1], indent)
  }

  predicate Deeper(levels: seq<nat>, indent: nat) {
    levels == [] || indent > levels[|levels| - 1]
  }

  function ModeOf(value: string): Mode {
    if BlockMarker(value) then Marked else if value == "" then Empty else Closed
  }

  /** An entry at the last of these levels. */
  function Enter(levels: seq<nat>, line: Line): Option<State> {
    var colon := Colon(line.content);
    if colon.None? then None else Some(State(levels, ModeOf(Trim(line.content[colon.value + 1..]))))
  }

  /** More of the text or list above, or the first line of one. */
  predicate Continues(s: State, line: Line) {
    match s.mode
    case Closed => false
    case Empty => Deeper(s.levels, line.indent) && IsDash(line.content)
    case Marked => Deeper(s.levels, line.indent)
    case InText(indent) => line.indent >= indent
    case InItems(indent) => line.indent == indent && IsDash(line.content)
  }

  function Continued(s: State, line: Line): State {
    match s.mode
    case Marked => s.(mode := InText(line.indent))
    case Empty => s.(mode := InItems(line.indent))
    case _ => s
  }

  /** The first entry of a mapping. */
  predicate Opens(s: State, line: Line) {
    s.mode == Empty && Deeper(s.levels, line.indent)
  }

  /**
   A line has a place when it goes on with the list or text above it, is deeper
   than an entry with nothing after its colon, or returns to an open mapping.
   */
  predicate Fits(s: State, line: Line) {
    Continues(s, line) || Opens(s, line) || line.indent in s.levels
  }

  /** One pass over the lines, up to the first that has no place or no colon. */
  function Scan(lines: seq<Line>, s: State): Ending {
    if lines == [] || !Fits(s, lines[0]) then Dropped(lines)
    else if Continues(s, lines[0]) then Scan(lines[1..], Continued(s, lines[0]))
    else
      var levels := if Opens(s, lines[0]) then s.levels + [lines[0].indent] else Cut(s.levels, lines[0].indent);
      var next := Enter(levels, lines[0]);
      if next.None? then NoColon(lines) else Scan(lines[1..], next.value)
  }

  /** The pass goes on after what the parser has read as it does over nothing but the levels around it. */
  ghost predicate Follows(r: Outcome, scanned: Ending, levels: seq<nat>) {
    if r.Done? then scanned == Scan(r.rest, State(levels, Closed)) else scanned == NoColon(r.at)
  }

  lemma {:induction false} ItemsScan(rest: seq<Line>, levels: seq<nat>, indent: nat)
    ensures Scan(rest, State(levels, InItems(indent))) == Scan(rest[ItemCount(rest, indent)..], State(levels, Closed))
  {
    if rest != [] && rest[0].indent == indent && IsDash(rest[0].content) {
      ItemsScan(rest[1..], levels, indent);
      assert rest[1..][ItemCount(rest[1..], indent)..] == rest[ItemCount(rest, indent)..];
    }
  }

  lemma {:induction false} TextScan(rest: seq<Line>, levels: seq<nat>, indent: nat)
    ensures Scan(rest, State(levels, InText(indent))) == Scan(rest[DeepCount(rest, indent)..], State(levels, Closed))
  {
    if rest != [] && rest[0].indent >= indent {
      TextScan(rest[1..], levels, indent);
      assert rest[1..][DeepCount(rest[1..], indent)..] == rest[DeepCount(rest, indent)..];
    }
  }

  lemma {:induction false} ValueScan(next: seq<Line>, levels: seq<nat>, value: string)
    requires levels != []
    ensures Follows(ValueFrom(next, levels[|levels| - 1], value), Scan(next, State(levels, ModeOf(value))), levels)
    decreases |next|, 3
  {
    var indent := levels[|levels| - 1];
    if next != [] && next[0].indent > indent {
      if BlockMarker(value) {
        var child := next[0].indent;
        TextScan(next[1..], levels, child);
        assert next[1..][DeepCount(next[1..], child)..] == next[DeepCount(next, child)..];
      } else if value == "" {
        BlockScan(next, levels);
      }
    }
  }

  /** A deeper entry under an empty value starts a mapping at its level. */
  lemma {:induction false} OpensLevel(next: seq<Line>, levels: seq<nat>)
    requires next != [] && Deeper(levels, next[0].indent) && !IsDash(next[0].content)
    ensures Scan(next, State(levels, Empty)) == Scan(next, State(levels + [next[0].indent], Closed))
  {
  }

  lemma {:induction false} BlockScan(next: seq<Line>, levels: seq<nat>)
    requires next != [] && Deeper(levels, next[0].indent)
    ensures Follows(BlockFrom(next, next[0].indent), Scan(next, State(levels, Empty)), levels)
    decreases |next|, 2
  {
    var indent := next[0].indent;
    if IsDash(next[0].content) {
      ItemsScan(next[1..], levels, indent);
      assert next[1..][ItemCount(next[1..], indent)..] == next[ItemCount(next, indent)..];
    } else {
      OpensLevel(next, levels);
      FieldsScan(next, levels, indent, map[]);
    }
  }

  lemma {:induction false} EntryScan(rest: seq<Line>, levels: seq<nat>)
    requires rest != [] && levels != [] && rest[0].indent == levels[|levels| - 1] && ':' in rest[0].content
    ensures var value := Trim(rest[0].content[Colon(rest[0].content).value + 1..]);
            Scan(rest, State(levels, Closed)) == Scan(rest[1..], State(levels, ModeOf(value)))
  {
  }

  /** A closed mapping does not matter to a line at another level. */
  lemma {:induction false} ClosesLevel(rest: seq<Line>, levels: seq<nat>, indent: nat)
    requires rest == [] || rest[0].indent != indent
    ensures Scan(rest, State(levels + [indent], Closed)) == Scan(rest, State(levels, Closed))
  {
  }

  lemma {:induction false} FieldsScan(rest: seq<Line>, levels: seq<nat>, indent: nat, obj: map<string, Yaml>)
    ensures Follows(FieldsFrom(rest, indent, obj), Scan(rest, State(levels + [indent], Closed)), levels)
    decreases |rest|, 1
  {
    var inner := levels + [indent];
    if rest == [] || rest[0].indent != indent {
      ClosesLevel(rest, levels, indent);
    } else if ':' in rest[0].content {
      var field := FieldFrom(rest);
      EntryScan(rest, inner);
      ValueScan(rest[1..], inner, Trim(rest[0].content[Colon(rest[0].content).value + 1..]));
      if field.Done? {
        FieldsScan(field.rest, levels, indent, obj[Key(rest[0]) := field.value]);
      }
    }
  }

  function FirstLevel(lines: seq<Line>): nat {
    if lines == [] then 0 else lines[0].indent
  }

  /** The parser stops where the pass does, for the same reason, on every list of lines. */
  lemma {:induction false} ReadsWhatFits(lines: seq<Line>)
    ensures match BlockFrom(lines, FirstLevel(lines))
            case Done(_, rest) => Scan(lines, START) == Dropped(rest)
            case Failed(at) => Scan(lines, START) == NoColon(at)
  {
    if lines != [] {
      BlockScan(lines, []);
    }
  }

  /** A document is read to its end exactly when every line has a place, and a colon where it starts an entry. */
  lemma {:induction false} NothingDroppedIff(lines: seq<Line>)
    ensures (exists v :: BlockFrom(lines, FirstLevel(lines)) == Done(v, [])) <==> Scan(lines, START) == Dropped([])
    ensures Document(lines).Failure? <==> Scan(lines, START).NoColon?
  {
    ReadsWhatFits(lines);
    var r := BlockFrom(lines, FirstLevel(lines));
    assert r.Done? ==> r == Done(r.value, r.rest);
  }

  // ---------- dropped lines do not matter ----------

  ghost predicate IsSuffix(rest: seq<Line>, lines: seq<Line>) {
    |rest| <= |lines| && lines[|lines| - |rest|..] == rest
  }

  function Front(lines: seq<Line>, rest: seq<Line>): seq<Line>
    requires |rest| <= |lines|
  {
    lines[..|lines| - |rest|]
  }

  /** Lines that may stand where `rest` stood: they are none, or begin with the same line. */
  ghost predicate Replaces(other: seq<Line>, rest: seq<Line>) {
    other == [] || (rest != [] && other[0] == rest[0])
  }

  lemma {:induction false} ItemsTrim(lines: seq<Line>, indent: nat, other: seq<Line>)
    requires Replaces(other, lines[ItemCount(lines, indent)..])
    ensures ItemCount(lines[..ItemCount(lines, indent)] + other, indent) == ItemCount(lines, indent)
  {
    var n := ItemCount(lines, indent);
    if n > 0 {
      assert lines[1..][ItemCount(lines[1..], indent)..] == lines[n..];
      ItemsTrim(lines[1..], indent, other);
      assert (lines[..n] + other)[1..] == lines[1..][..n - 1] + other;
    } else {
      assert lines[..n] + other == other;
    }
  }

  lemma {:induction false} TextTrim(lines: seq<Line>, indent: nat, other: seq<Line>)
    requires Replaces(other, lines[DeepCount(lines, indent)..])
    ensures DeepCount(lines[..DeepCount(lines, indent)] + other, indent) == DeepCount(lines, indent)
  {
    var n := DeepCount(lines, indent);
    if n > 0 {
      assert lines[1..][DeepCount(lines[1..], indent)..] == lines[n..];
      TextTrim(lines[1..], indent, other);
      assert (lines[..n] + other)[1..] == lines[1..][..n - 1] + other;
    } else {
      assert lines[..n] + other == other;
    }
  }

  lemma {:induction false} ValueTrim(next: seq<Line>, indent: nat, value: string, v: Yaml, rest: seq<Line>,
                                     other: seq<Line>)
    requires ValueFrom(next, indent, value) == Done(v, rest) && Replaces(other, rest)
    ensures IsSuffix(rest, next) && ValueFrom(Front(next, rest) + other, indent, value) == Done(v, other)
    decreases |next|, 3
  {
    var nested := next != [] && next[0].indent > indent;
    if nested && BlockMarker(value) {
      var n := DeepCount(next, next[0].indent);
      TextTrim(next, next[0].indent, other);
      assert (next[..n] + other)[..n] == next[..n] && (next[..n] + other)[n..] == other;
    } else if nested && value == "" {
      BlockTrim(next, v, rest, other);
    } else {
      assert Front(next, next) + other == other;
    }
  }

  lemma {:induction false} BlockTrim(next: seq<Line>, v: Yaml, rest: seq<Line>, other: seq<Line>)
    requires next != [] && BlockFrom(next, next[0].indent) == Done(v, rest) && Replaces(other, rest)
    ensures |rest| < |next| && IsSuffix(rest, next)
    ensures BlockFrom(Front(next, rest) + other, next[0].indent) == Done(v, other)
    decreases |next|, 2
  {
    if IsDash(next[0].content) {
      var n := ItemCount(next, next[0].indent);
      ItemsTrim(next, next[0].indent, other);
      assert (next[..n] + other)[..n] == next[..n] && (next[..n] + other)[n..] == other;
    } else {
      FieldsTrim(next, next[0].indent, map[], v, rest, other);
      FirstStays(next, rest, other);
    }
  }

  lemma {:induction false} Fronts(lines: seq<Line>, middle: seq<Line>, rest: seq<Line>, other: seq<Line>)
    requires IsSuffix(middle, lines) && IsSuffix(rest, middle)
    ensures IsSuffix(rest, lines)
    ensures Front(lines, rest) + other == Front(lines, middle) + (Front(middle, rest) + other)
  {
  }

  lemma {:induction false} FrontTail(lines: seq<Line>, rest: seq<Line>, other: seq<Line>)
    requires lines != [] && IsSuffix(rest, lines[1..])
    ensures IsSuffix(rest, lines) && Front(lines, rest) + other == [lines[0]] + (Front(lines[1..], rest) + other)
  {
  }

  lemma {:induction false} FirstStays(lines: seq<Line>, rest: seq<Line>, other: seq<Line>)
    requires |rest| < |lines|
    ensures Front(lines, rest) + other != [] && (Front(lines, rest) + other)[0] == lines[0]
  {
  }

  lemma {:induction false} OneValue(first: Line, next: seq<Line>)
    requires ':' in first.content
    ensures FieldFrom([first] + next)
         == ValueFrom(next, first.indent, Trim(first.content[Colon(first.content).value + 1..]))
  {
  }

  lemma {:induction false} FieldTrim(lines: seq<Line>, v: Yaml, rest: seq<Line>, other: seq<Line>)
    requires lines != [] && FieldFrom(lines) == Done(v, rest) && Replaces(other, rest)
    ensures IsSuffix(rest, lines) && FieldFrom(Front(lines, rest) + other) == Done(v, other)
    decreases |lines|, 0
  {
    var first, next := lines[0], lines[1..];
    assert lines == [first] + next;
    OneValue(first, next);
    ValueTrim(next, first.indent, Trim(first.content[Colon(first.content).value + 1..]), v, rest, other);
    FrontTail(lines, rest, other);
    OneValue(first, Front(next, rest) + other);
  }

  lemma {:induction false} OneField(lines: seq<Line>, indent: nat, obj: map<string, Yaml>, value: Yaml, rest: seq<Line>)
    requires lines != [] && lines[0].indent == indent && FieldFrom(lines) == Done(value, rest)
    ensures FieldsFrom(lines, indent, obj) == FieldsFrom(rest, indent, obj[Key(lines[0]) := value])
  {
  }

  lemma {:induction false} FieldJoins(
    lines: seq<Line>, indent: nat, obj: map<string, Yaml>, value: Yaml, middle: seq<Line>,
    v: Yaml, rest: seq<Line>, other: seq<Line>)
    requires lines != [] && lines[0].indent == indent && ':' in lines[0].content
    requires |middle| < |lines| && IsSuffix(middle, lines) && IsSuffix(rest, middle)
    requires FieldFrom(Front(lines, middle) + (Front(middle, rest) + other)) == Done(value, Front(middle, rest) + other)
    requires FieldsFrom(Front(middle, rest) + other, indent, obj[Key(lines[0]) := value]) == Done(v, other)
    ensures IsSuffix(rest, lines) && FieldsFrom(Front(lines, rest) + other, indent, obj) == Done(v, other)
  {
    var others := Front(middle, rest) + other;
    Fronts(lines, middle, rest, other);
    FirstStays(lines, middle, others);
    OneField(Front(lines, middle) + others, indent, obj, value, others);
  }

  lemma {:induction false} FieldsEnd(lines: seq<Line>, indent: nat, obj: map<string, Yaml>, other: seq<Line>)
    requires lines == [] || lines[0].indent != indent
    requires Replaces(other, lines)
    ensures FieldsFrom(lines, indent, obj) == Done(Obj(obj), lines) && IsSuffix(lines, lines)
    ensures FieldsFrom(Front(lines, lines) + other, indent, obj) == Done(Obj(obj), other)
  {
  }

  /** What a mapping reads does not depend on the lines it leaves, but for the first of them. */
  lemma {:induction false} FieldsTrim(
    lines: seq<Line>, indent: nat, obj: map<string, Yaml>, v: Yaml, rest: seq<Line>, other: seq<Line>)
    requires FieldsFrom(lines, indent, obj) == Done(v, rest) && Replaces(other, rest)
    ensures IsSuffix(rest, lines) && (lines != [] && lines[0].indent == indent ==> |rest| < |lines|)
    ensures FieldsFrom(Front(lines, rest) + other, indent, obj) == Done(v, other)
    decreases |lines|, 1
  {
    if lines == [] || lines[0].indent != indent {
      FieldsEnd(lines, indent, obj, other);
    } else {
      var value, middle := FieldSplits(lines, indent, obj, v, rest);
      FieldsTrim(middle, indent, obj[Key(lines[0]) := value], v, rest, other);
      ReplacesStill(middle, rest, other);
      FieldTrim(lines, value, middle, Front(middle, rest) + other);
      FieldJoins(lines, indent, obj, value, middle, v, rest, other);
    }
  }

  lemma {:induction false} FieldSplits(lines: seq<Line>, indent: nat, obj: map<string, Yaml>, v: Yaml, rest: seq<Line>)
    returns (value: Yaml, middle: seq<Line>)
    requires lines != [] && lines[0].indent == indent && FieldsFrom(lines, indent, obj) == Done(v, rest)
    ensures ':' in lines[0].content && |middle| < |lines| && FieldFrom(lines) == Done(value, middle)
    ensures FieldsFrom(middle, indent, obj[Key(lines[0]) := value]) == Done(v, rest)
  {
    var field := FieldFrom(lines);
    value, middle := field.value, field.rest;
  }

  lemma {:induction false} ReplacesStill(middle: seq<Line>, rest: seq<Line>, other: seq<Line>)
    requires IsSuffix(rest, middle) && Replaces(other, rest)
    ensures Replaces(Front(middle, rest) + other, middle)
  {
  }

  /** The value of a document is that of the lines before the first one that has no place. */
  lemma {:induction false} DroppedLinesDoNotMatter(lines: seq<Line>)
    requires Scan(lines, START).Dropped?
    ensures var rest := Scan(lines, START).lines;
            && IsSuffix(rest, lines)
            && Document(lines) == Document(Front(lines, rest)) && Scan(Front(lines, rest), START) == Dropped([])
  {
    ReadsWhatFits(lines);
    if lines != [] {
      var rest := Scan(lines, START).lines;
      var kept := Front(lines, rest);
      BlockTrim(lines, BlockFrom(lines, FirstLevel(lines)).value, rest, []);
      assert kept + [] == kept;
      ReadsWhatFits(kept);
    }
  }

  // ---------- documents in good shape, and two that are not ----------

  /** What the layout writes is read to its end. */
  lemma {:induction false} LayoutsFit(node: Node)
    requires node.Items? || (node.Mapping? && node.entries != [])
    requires LaidOut(node, -1)
    ensures Scan(Layout(node), START) == Dropped([])
  {
    BlockReads(node, -1, []);
    assert Layout(node) + [] == Layout(node);
    ReadsWhatFits(Layout(node));
  }

  lemma {:induction false} EmptyEntry(indent: nat, key: char, next: seq<Line>)
    requires key != ':' && !Space(key)
    ensures var lines := [Line(indent, [key, ':'])] + next;
            && Key(lines[0]) == [key] && !IsDash(lines[0].content)
            && FieldFrom(lines) == ValueFrom(next, indent, "")
  {
  }

  /** An entry at the level of a list ends the document there. */
  lemma {:induction false} EntryAfterList()
    ensures var lines := [Line(0, "- x"), Line(0, "k: v")];
            Document(lines) == Success(List([Str("x")])) && Scan(lines, START) == Dropped([Line(0, "k: v")])
  {
    var first, second := Line(0, "- x"), Line(0, "k: v");
    var lines := [first, second];
    assert lines[1..] == [second];
    assert ItemCount([second], 0) == 0 && ItemCount(lines, 0) == 1;
    assert lines[..1] == [first];
    assert "- x"[1..] == " x" && " x"[1..] == "x";
    assert ItemText("- x") == "x";
    PlainScalar("x");
    assert ItemValues([first]) == [Str("x")];
    ReadsWhatFits(lines);
  }

  lemma {:induction false} PlainScalar(s: string)
    requires |s| == 1 && s[0] == 'x'
    ensures ParseScalar(s) == Str(s)
  {
    assert Split(s, '.') == [s] by {
      SplitWhole(s, '.');
    }
  }

  /** So does a line between two levels. */
  lemma {:induction false} LineBetweenLevels()
    ensures var lines := [Line(0, "a:"), Line(2, "x:"), Line(1, "y: z")];
            && Document(lines) == Success(Obj(map["a" := Obj(map["x" := Obj(map[])])]))
            && Scan(lines, START) == Dropped([Line(1, "y: z")])
  {
    var last := [Line(1, "y: z")];
    var inner := [Line(2, "x:")] + last;
    var lines := [Line(0, "a:")] + inner;
    EmptyEntry(2, 'x', last);
    assert FieldFrom(inner) == Done(Obj(map[]), last);
    OneField(inner, 2, map[], Obj(map[]), last);
    assert BlockFrom(inner, 2) == Done(Obj(map["x" := Obj(map[])]), last);
    EmptyEntry(0, 'a', inner);
    assert FieldFrom(lines) == Done(Obj(map["x" := Obj(map[])]), last);
    OneField(lines, 0, map[], Obj(map["x" := Obj(map[])]), last);
    assert BlockFrom(lines, 0) == Done(Obj(map["a" := Obj(map["x" := Obj(map[])])]), last);
    ReadsWhatFits(lines);
    assert lines == [Line(0, "a:"), Line(2, "x:"), Line(1, "y: z")];
  }
}
