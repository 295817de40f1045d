/**
 The token script's YAML subset (scripts/stitch-tokens-to-css.ts:91-164): scalars,
 and the cursor-driven parser that turns indented lines into nested values.
 */
module YamlBlock {
  import opened Text
  import opened Wrappers

  datatype Yaml =
    | Null
    | Bool(truth: bool)
    | Number(value: real)
    | Str(text: string)
    | List(items: seq<Yaml>)
    | Obj(fields: map<string, Yaml>)

  /** A line with comment, indentation and trailing blanks removed. */
  datatype Line = Line(indent: nat, content: string)

  /**
   A block's value and the lines the cursor has not passed, or the lines from
   the one that is no `key: value`.
   */
  datatype Outcome = Done(value: Yaml, rest: seq<Line>) | Failed(at: seq<Line>)

  // ---------- trimming ----------

  function TrimStart(s: string): string {
    if s != "" && Space(s[0]) then TrimStart(s[1..]) else s
  }

  function TrimEnd(s: string): string {
    if s != "" && Space(s[|s| - 1]) then TrimEnd(s[..|s| - 1]) else s
  }

  function Trim(s: string): string {
    TrimEnd(TrimStart(s))
  }

  lemma {:induction false} TrimmedAfterSpace(t: string)
    requires Trim(t) == t
    ensures Trim(" " + t) == t
  {
  }

  // ---------- scalars ----------

  predicate AllDigits(s: string) {
    s != "" && forall i :: 0 <= i < |s| ==> '0' <= s[i] <= '9'
  }

  function Magnitude(digits: string): nat
    requires forall i :: 0 <= i < |digits| ==> '0' <= digits[i] <= '9'
  {
    if digits == "" then 0
    else 10 * Magnitude(digits[..|digits| - 1]) + (digits[|digits| - 1] - '0') as int
  }

  function TenTo(n: nat): (r: nat)
    ensures r > 0
  {
    if n == 0 then 1 else 10 * TenTo(n - 1)
  }

  /** The value of /^-?\d+$/ and /^-?\d+\.\d+$/ texts. */
  function NumberOf(s: string): Option<real> {
    var negative := s != "" && s[0] == '-';
    var parts := Split(if negative then s[1..] else s, '.');
    if |parts| <= 2 && AllDigits(parts[0]) && (|parts| == 2 ==> AllDigits(parts[1])) then
      var whole := Magnitude(parts[0]) as real;
      var value := if |parts| == 1 then whole
                   else whole + Magnitude(parts[1]) as real / TenTo(|parts[1]|) as real;
      Some(if negative then -value else value)
    else None
  }

  /** Replaces every `first``second` pair, scanning from the left. */
  function ReplacePair(s: string, first: char, second: char, with: char): string {
    if |s| >= 2 && s[0] == first && s[1] == second then [with] + ReplacePair(s[2..], first, second, with)
    else if s == "" then ""
    else [s[0]] + ReplacePair(s[1..], first, second, with)
  }

  function Unescape(s: string): string {
    ReplacePair(ReplacePair(s, '\\', '"', '"'), '\\', '\\', '\\')
  }

  predicate Enclosed(s: string, quote: char) {
    s != "" && s[0] == quote && s[|s| - 1] == quote
  }

  /** slice(1, -1): a lone quote mark has nothing inside it. */
  function Inside(s: string): string {
    if |s| < 2 then "" else s[1..|s| - 1]
  }

  function ParseScalar(s: string): Yaml {
    if s == "" || s == "~" || s == "null" then Null
    else if s == "true" then Bool(true)
    else if s == "false" then Bool(false)
    else if Enclosed(s, '"') then Str(Unescape(Inside(s)))
    else if Enclosed(s, '\'') then Str(Inside(s))
    else
      var n := NumberOf(s);
      if n.Some? then Number(n.value) else Str(s)
  }

  // ---------- the parser, as a function ----------

  predicate IsDash(content: string) {
    content == "-" || (|content| >= 2 && content[0] == '-' && content[1] == ' ')
  }

  /** The text after the dash and the blanks behind it. */
  function ItemText(content: string): string {
    if content != "" && content[0] == '-' then TrimStart(content[1..]) else content
  }

  /** How many leading lines are items at this indentation. */
  function ItemCount(rest: seq<Line>, indent: nat): (n: nat)
    ensures n <= |rest|
  {
    if rest != [] && rest[0].indent == indent && IsDash(rest[0].content) then 1 + ItemCount(rest[1..], indent) else 0
  }

  function ItemValues(lines: seq<Line>): seq<Yaml> {
    if lines == [] then [] else [ParseScalar(ItemText(lines[0].content))] + ItemValues(lines[1..])
  }

  function Colon(s: string): (r: Option<nat>)
    ensures r.None? <==> ':' !in s
    ensures r.Some? ==> r.value < |s| && s[r.value] == ':' && ':' !in s[..r.value]
  {
    if s == "" then None
    else if s[0] == ':' then Some(0)
    else
      var later := Colon(s[1..]);
      if later.None? then None
      else assert s[..later.value + 1] == [s[0]] + s[1..][..later.value]; Some(later.value + 1)
  }

  predicate BlockMarker(s: string) {
    s == ">" || s == ">-" || s == "|" || s == "|-"
  }

  function Separator(marker: string): string
    requires BlockMarker(marker)
  {
    if marker[0] == '>' then " " else "\n"
  }

  /** How many leading lines are indented at least this much. */
  function DeepCount(rest: seq<Line>, indent: nat): (n: nat)
    ensures n <= |rest|
  {
    if rest != [] && rest[0].indent >= indent then 1 + DeepCount(rest[1..], indent) else 0
  }

  function Contents(lines: seq<Line>): seq<string> {
    if lines == [] then [] else [lines[0].content] + Contents(lines[1..])
  }

  function Key(line: Line): string
    requires ':' in line.content
  {
    Trim(line.content[..Colon(line.content).value])
  }

  /** The value after the colon, with the lines nested under a line at `indent`. */
  function ValueFrom(next: seq<Line>, indent: nat, value: string): (r: Outcome)
    ensures r.Done? ==> |r.rest| <= |next|
    ensures r.Failed? ==> r.at != [] && ':' !in r.at[0].content
    decreases |next|, 3
  {
    var nested := next != [] && next[0].indent > indent;
    if BlockMarker(value) then
      if nested then
        var n := DeepCount(next, next[0].indent);
        Done(Str(Join(Contents(next[..n]), Separator(value))), next[n..])
      else Done(Str(""), next)
    else if value != "" then Done(ParseScalar(value), next)
    else if nested then BlockFrom(next, next[0].indent)
    else Done(Obj(map[]), next)
  }

  /** The value of the entry on the first line. */
  function FieldFrom(rest: seq<Line>): (r: Outcome)
    requires rest != []
    ensures r.Done? ==> |r.rest| < |rest| && ':' in rest[0].content
    ensures r.Failed? ==> r.at != [] && ':' !in r.at[0].content
    decreases |rest|, 0
  {
    var content := rest[0].content;
    var colon := Colon(content);
    if colon.None? then Failed(rest)
    else ValueFrom(rest[1..], rest[0].indent, Trim(content[colon.value + 1..]))
  }

  function FieldsFrom(rest: seq<Line>, indent: nat, obj: map<string, Yaml>): (r: Outcome)
    ensures r.Done? ==> |r.rest| <= |rest| && r.value.Obj? && (r.rest == [] || r.rest[0].indent != indent)
    ensures r.Failed? ==> r.at != [] && ':' !in r.at[0].content
    decreases |rest|, 1
  {
    if rest != [] && rest[0].indent == indent then
      var field := FieldFrom(rest);
      if field.Failed? then field
      else FieldsFrom(field.rest, indent, obj[Key(rest[0]) := field.value])
    else Done(Obj(obj), rest)
  }

  function BlockFrom(rest: seq<Line>, blockIndent: nat): (r: Outcome)
    ensures r.Done? ==> |r.rest| <= |rest|
    ensures r.Failed? ==> r.at != [] && ':' !in r.at[0].content
    decreases |rest|, 2
  {
    if rest == [] || rest[0].indent < blockIndent then Done(Obj(map[]), rest)
    else if IsDash(rest[0].content) then
      var n := ItemCount(rest, rest[0].indent);
      Done(List(ItemValues(rest[..n])), rest[n..])
    else FieldsFrom(rest, rest[0].indent, map[])
  }

  /** The value of a whole document. Lines the block did not reach are not looked at. */
  function Document(lines: seq<Line>): Result<Yaml, Line> {
    var r := BlockFrom(lines, if lines == [] then 0 else lines[0].indent);
    if r.Done? then Success(r.value) else Failure(r.at[0])
  }

  // ---------- the parser, as the program ----------

  class Parser {
    const lines: seq<Line>
    var pos: nat

    constructor (lines: seq<Line>)
      ensures this.lines == lines && pos == 0
    {
      this.lines := lines;
      pos := 0;
    }

    ghost predicate Valid()
      reads this
    {
      pos <= |lines|
    }

    ghost function Rest(): seq<Line>
      reads this
      requires Valid()
    {
      lines[pos..]
    }

    method ReadItems(indent: nat) returns (arr: seq<Yaml>)
      requires Valid()
      modifies `pos
      ensures Valid() && pos == old(pos) + ItemCount(old(Rest()), indent)
      ensures arr == ItemValues(lines[old(pos)..pos])
    {
      arr := [];
      ItemsBegin(lines, pos, indent);
      while pos < |lines| && lines[pos].indent == indent && IsDash(lines[pos].content)
        invariant Valid() && ItemsSoFar(lines, old(pos), pos, indent, arr)
      {
        ItemsOneMore(lines, old(pos), pos, indent, arr);
        var item := ItemText(lines[pos].content);
        arr := arr + [ParseScalar(item)];
        pos := pos + 1;
      }
      ItemsEnd(lines, old(pos), pos, indent, arr);
    }

    method ReadText(childIndent: nat) returns (parts: seq<string>)
      requires Valid()
      modifies `pos
      ensures Valid() && pos == old(pos) + DeepCount(old(Rest()), childIndent)
      ensures parts == Contents(lines[old(pos)..pos])
    {
      parts := [];
      while pos < |lines| && lines[pos].indent >= childIndent
        invariant Valid() && old(pos) <= pos
        invariant DeepCount(old(Rest()), childIndent) == pos - old(pos) + DeepCount(Rest(), childIndent)
        invariant parts == Contents(lines[old(pos)..pos])
      {
        assert Rest()[0] == lines[pos] && Rest()[1..] == lines[pos + 1..];
        ContentsOneMore(lines, old(pos), pos);
        parts := parts + [lines[pos].content];
        pos := pos + 1;
      }
    }

    /** The branches on the text after the colon of a line at `indent`. */
    method ReadValue(indent: nat, value: string) returns (r: Result<Yaml, Line>)
      requires Valid()
      modifies `pos
      ensures Valid()
      ensures
        var v := ValueFrom(old(Rest()), indent, value);
        if v.Done? then r == Success(v.value) && Rest() == v.rest && pos >= old(pos)
        else r == Failure(v.at[0])
      decreases |lines| - pos, 2
    {
      ghost var next := Rest();
      assert next != [] ==> next[0] == lines[pos];
      if BlockMarker(value) {
        var childIndent := if pos < |lines| then lines[pos].indent else -1;
        if childIndent > indent {
          var parts := ReadText(childIndent);
          assert next[..pos - old(pos)] == lines[old(pos)..pos];
          return Success(Str(Join(parts, Separator(value))));
        }
        return Success(Str(""));
      } else if value == "" {
        if pos < |lines| && lines[pos].indent > indent {
          r := ParseBlock(lines[pos].indent);
          return;
        }
        return Success(Obj(map[]));
      }
      return Success(ParseScalar(value));
    }

    /** One turn of the object loop, up to the assignment to obj[key]. */
    method ReadField() returns (r: Result<(string, Yaml), Line>)
      requires Valid() && pos < |lines|
      modifies `pos
      ensures Valid()
      ensures
        var f := FieldFrom(old(Rest()));
        if f.Done? then r == Success((Key(old(Rest())[0]), f.value)) && Rest() == f.rest && pos > old(pos)
        else r == Failure(f.at[0])
      decreases |lines| - pos, 0
    {
      var cur := lines[pos];
      ghost var rest := Rest();
      ghost var f := FieldFrom(rest);
      assert rest[0] == cur;
      var colon := Colon(cur.content);
      if colon.None? { return Failure(cur); }
      var key := Trim(cur.content[..colon.value]);
      assert key == Key(cur);
      var value := Trim(cur.content[colon.value + 1..]);
      pos := pos + 1;
      assert Rest() == rest[1..];
      assert f == ValueFrom(Rest(), cur.indent, value);
      var v := ReadValue(cur.indent, value);
      if v.Failure? { return Failure(v.error); }
      return Success((key, v.value));
    }

    method ParseBlock(blockIndent: nat) returns (r: Result<Yaml, Line>)
      requires Valid()
      modifies `pos
      ensures Valid()
      ensures
        var b := BlockFrom(old(Rest()), blockIndent);
        if b.Done? then r == Success(b.value) && Rest() == b.rest && pos >= old(pos)
        else r == Failure(b.at[0])
      decreases |lines| - pos, 1
    {
      if pos >= |lines| || lines[pos].indent < blockIndent { return Success(Obj(map[])); }
      var first := lines[pos];
      assert Rest()[0] == first;
      if IsDash(first.content) {
        ghost var rest := Rest();
        var arr := ReadItems(first.indent);
        assert rest[..pos - old(pos)] == lines[old(pos)..pos];
        return Success(List(arr));
      }
      var obj: map<string, Yaml> := map[];
      while pos < |lines| && lines[pos].indent == first.indent
        invariant Valid() && old(pos) <= pos
        invariant FieldsFrom(Rest(), first.indent, obj) == BlockFrom(old(Rest()), blockIndent)
        decreases |lines| - pos
      {
        var field := ReadField();
        if field.Failure? { return Failure(field.error); }
        obj := obj[field.value.0 := field.value.1];
      }
      return Success(Obj(obj));
    }
  }

  /** The items from `start` up to `pos` have been read; more may follow. */
  ghost predicate ItemsSoFar(lines: seq<Line>, start: nat, pos: nat, indent: nat, arr: seq<Yaml>) {
    && start <= pos <= |lines|
    && ItemCount(lines[start..], indent) == pos - start + ItemCount(lines[pos..], indent)
    && arr == ItemValues(lines[start..pos])
  }

  lemma {:induction false} ItemsBegin(lines: seq<Line>, start: nat, indent: nat)
    requires start <= |lines|
    ensures ItemsSoFar(lines, start, start, indent, [])
  {
  }

  lemma {:induction false} ItemsOneMore(lines: seq<Line>, start: nat, pos: nat, indent: nat, arr: seq<Yaml>)
    requires ItemsSoFar(lines, start, pos, indent, arr) && pos < |lines|
    requires lines[pos].indent == indent && IsDash(lines[pos].content)
    ensures ItemsSoFar(lines, start, pos + 1, indent, arr + [ParseScalar(ItemText(lines[pos].content))])
  {
    assert lines[pos..][1..] == lines[pos + 1..];
    ItemValuesSnoc(lines, start, pos);
  }

  lemma {:induction false} ItemsEnd(lines: seq<Line>, start: nat, pos: nat, indent: nat, arr: seq<Yaml>)
    requires ItemsSoFar(lines, start, pos, indent, arr)
    requires pos < |lines| ==> lines[pos].indent != indent || !IsDash(lines[pos].content)
    ensures pos == start + ItemCount(lines[start..], indent) && arr == ItemValues(lines[start..pos])
  {
  }

  lemma {:induction false} ContentsOneMore(lines: seq<Line>, i: nat, n: nat)
    requires i <= n < |lines|
    ensures Contents(lines[i..n + 1]) == Contents(lines[i..n]) + [lines[n].content]
    decreases n - i
  {
    assert lines[i..n + 1][1..] == lines[i + 1..n + 1];
    if i < n {
      assert lines[i..n][1..] == lines[i + 1..n];
      ContentsOneMore(lines, i + 1, n);
    }
  }

  lemma {:induction false} ItemValuesSnoc(lines: seq<Line>, i: nat, n: nat)
    requires i <= n < |lines|
    ensures ItemValues(lines[i..n + 1]) == ItemValues(lines[i..n]) + [ParseScalar(ItemText(lines[n].content))]
    decreases n - i
  {
    assert lines[i..n + 1][1..] == lines[i + 1..n + 1];
    if i < n {
      assert lines[i..n][1..] == lines[i + 1..n];
      ItemValuesSnoc(lines, i + 1, n);
    }
  }

  /** The parser on a whole file: it ends on every list of lines. */
  method ParseLines(lines: seq<Line>) returns (r: Result<Yaml, Line>)
    ensures r == Document(lines)
  {
    var p := new Parser(lines);
    assert p.Rest() == lines;
    r := p.ParseBlock(if |lines| > 0 then lines[0].indent else 0);
  }
}
