/**
 The text side of the token script's YAML reader (scripts/stitch-tokens-to-css.ts:66-102):
 comments, blank lines, indentation and double-quoted scalars.
 */
module YamlText {
  import opened Text
  import opened Wrappers
  import opened YamlBlock
  import opened YamlLayout

  // ---------- comments ----------

  /**
   What is kept of a line. `escaped` says the character before is a backslash,
   `quoted` that the scan is inside double quotes.
   */
  function Kept(line: string, escaped: bool, quoted: bool): string {
    if line == "" then ""
    else
      var inside := if line[0] == '"' && !escaped then !quoted else quoted;
      if line[0] == '#' && !inside then "" else [line[0]] + Kept(line[1..], line[0] == '\\', inside)
  }

  /** One step of the scan, from the position `i` with `out` already kept. */
  lemma {:induction false} KeptStep(line: string, i: nat, out: string, escaped: bool, quoted: bool)
    requires i < |line|
    ensures
      var inside := if line[i] == '"' && !escaped then !quoted else quoted;
      out + Kept(line[i..], escaped, quoted) ==
        if line[i] == '#' && !inside then out else out + [line[i]] + Kept(line[i + 1..], line[i] == '\\', inside)
  {
  }

  method StripComment(line: string) returns (out: string)
    ensures out == Kept(line, false, false)
  {
    out := "";
    var inDQ := false;
    for i := 0 to |line|
      invariant Kept(line, false, false) == out + Kept(line[i..], i > 0 && line[i - 1] == '\\', inDQ)
    {
      var ch := line[i];
      KeptStep(line, i, out, i > 0 && line[i - 1] == '\\', inDQ);
      if ch == '"' && !(i > 0 && line[i - 1] == '\\') { inDQ := !inDQ; }
      if ch == '#' && !inDQ { break; }
      out := out + [ch];
    }
  }

  function LineOf(raw: string): Line {
    TrimStartIsShorter(raw);
    Line(|raw| - |TrimStart(raw)|, Trim(raw))
  }

  /** The line that is left of a text line, none if it is blank. */
  function LineIn(text: string): seq<Line> {
    var raw := TrimEnd(Kept(text, false, false));
    if Trim(raw) == "" then [] else [LineOf(raw)]
  }

  function LinesIn(texts: seq<string>): seq<Line> {
    if texts == [] then [] else LineIn(texts[0]) + LinesIn(texts[1..])
  }

  function LinesOf(text: string): seq<Line> {
    LinesIn(Split(text, '\n'))
  }

  lemma {:induction false} LinesInFrom(texts: seq<string>, i: nat, before: seq<Line>)
    requires i < |texts|
    ensures before + LinesIn(texts[i..]) == before + LineIn(texts[i]) + LinesIn(texts[i + 1..])
  {
  }

  /** The line's cleaned form, as a list that is empty if it is filtered out. */
  method CleanLine(text: string) returns (line: seq<Line>)
    ensures line == LineIn(text)
  {
    var out := StripComment(text);
    var raw := TrimEnd(out);
    line := if |Trim(raw)| > 0 then [LineOf(raw)] else [];
  }

  method CleanLines(text: string) returns (lines: seq<Line>)
    ensures lines == LinesOf(text)
  {
    var texts := Split(text, '\n');
    lines := [];
    for i := 0 to |texts|
      invariant LinesIn(texts) == lines + LinesIn(texts[i..])
    {
      LinesInFrom(texts, i, lines);
      var line := CleanLine(texts[i]);
      lines := lines + line;
    }
    assert lines + [] == lines;
  }

  method ParseYaml(text: string) returns (r: Result<Yaml, Line>)
    ensures r == Document(LinesOf(text))
  {
    var lines := CleanLines(text);
    r := ParseLines(lines);
  }

  // ---------- printed documents ----------

  function Spaces(n: nat): string {
    if n == 0 then "" else " " + Spaces(n - 1)
  }

  function Print(line: Line): string {
    Spaces(line.indent) + line.content
  }

  function Printed(lines: seq<Line>): seq<string> {
    if lines == [] then [] else [Print(lines[0])] + Printed(lines[1..])
  }

  lemma {:induction false} SpacesAreSpaces(n: nat)
    ensures forall c :: c in Spaces(n) ==> c == ' '
    decreases n
  {
    if n > 0 { SpacesAreSpaces(n - 1); }
  }

  /** A content that stands on one line: trimmed, without a comment. */
  predicate Stands(content: string) {
    content != "" && Trim(content) == content && '\n' !in content && Kept(content, false, false) == content
  }

  predicate EndsInBackslash(s: string) {
    s != "" && s[|s| - 1] == '\\'
  }

  /** A run without quotes and comment signs is kept as it is. */
  lemma {:induction false} KeptPrefix(prefix: string, rest: string, escaped: bool)
    requires '"' !in prefix && '#' !in prefix
    ensures Kept(prefix + rest, escaped, false) ==
            prefix + Kept(rest, if prefix == "" then escaped else EndsInBackslash(prefix), false)
    decreases |prefix|
  {
    if prefix == "" {
      assert prefix + rest == rest;
    } else {
      var more := prefix[1..];
      assert prefix == [prefix[0]] + more && prefix + rest == [prefix[0]] + (more + rest);
      KeptPlainChar(prefix[0], more + rest, escaped);
      KeptPrefix(more, rest, prefix[0] == '\\');
    }
  }

  lemma {:induction false} KeptPlainChar(c: char, rest: string, escaped: bool)
    requires c != '"' && c != '#'
    ensures Kept([c] + rest, escaped, false) == [c] + Kept(rest, c == '\\', false)
  {
  }

  lemma {:induction false} TrimStartIsShorter(s: string)
    ensures |TrimStart(s)| <= |s|
    ensures TrimStart(s) != "" ==> !Space(TrimStart(s)[0])
    ensures |TrimStart(s)| == |s| ==> TrimStart(s) == s
    decreases |s|
  {
    if s != "" && Space(s[0]) { TrimStartIsShorter(s[1..]); }
  }

  lemma {:induction false} TrimEndIsShorter(s: string)
    ensures |TrimEnd(s)| <= |s| && TrimEnd(s) == s[..|TrimEnd(s)|]
    ensures TrimEnd(s) != "" ==> !Space(TrimEnd(s)[|TrimEnd(s)| - 1])
    decreases |s|
  {
    if s != "" && Space(s[|s| - 1]) { TrimEndIsShorter(s[..|s| - 1]); }
  }

  /** A trimmed text neither starts nor ends with white space. */
  lemma {:induction false} TrimmedEnds(s: string)
    requires s != "" && Trim(s) == s
    ensures !Space(s[0]) && !Space(s[|s| - 1])
  {
    TrimStartIsShorter(s);
    TrimEndIsShorter(TrimStart(s));
  }

  lemma {:induction false} TrimStartAfterSpaces(n: nat, content: string)
    requires content != "" && !Space(content[0])
    ensures TrimStart(Spaces(n) + content) == content && |Spaces(n)| == n
    decreases n
  {
    if n == 0 {
      assert Spaces(n) + content == content;
    } else {
      var s := Spaces(n) + content;
      assert s[0] == ' ' && s[1..] == Spaces(n - 1) + content;
      TrimStartAfterSpaces(n - 1, content);
    }
  }

  lemma {:induction false} KeptAfterSpaces(n: nat, content: string)
    ensures Kept(Spaces(n) + content, false, false) == Spaces(n) + Kept(content, false, false)
  {
    SpacesAreSpaces(n);
    var spaces := Spaces(n);
    assert spaces != "" ==> spaces[|spaces| - 1] in spaces;
    KeptPrefix(spaces, content, false);
  }

  lemma {:induction false} PrintedLineReads(line: Line)
    requires Stands(line.content)
    ensures LineIn(Print(line)) == [line]
  {
    KeptAfterSpaces(line.indent, line.content);
    TrimmedEnds(line.content);
    var raw := Print(line);
    assert raw[|raw| - 1] == line.content[|line.content| - 1];
    assert TrimEnd(raw) == raw;
    TrimStartAfterSpaces(line.indent, line.content);
  }

  lemma {:induction false} PrintedLinesRead(lines: seq<Line>)
    requires forall i :: 0 <= i < |lines| ==> Stands(lines[i].content)
    ensures LinesIn(Printed(lines)) == lines
    decreases |lines|
  {
    if lines != [] {
      PrintedLineReads(lines[0]);
      PrintedLinesRead(lines[1..]);
    }
  }

  lemma {:induction false} NoBreaks(lines: seq<Line>)
    requires forall i :: 0 <= i < |lines| ==> Stands(lines[i].content)
    ensures forall t :: t in Printed(lines) ==> '\n' !in t
    decreases |lines|
  {
    if lines != [] {
      SpacesAreSpaces(lines[0].indent);
      NoBreaks(lines[1..]);
    }
  }

  /** Reading a printed document gives back the value it was printed from. */
  lemma {:induction false} TextRoundTrip(node: Node)
    requires node.Items? || (node.Mapping? && node.entries != [])
    requires LaidOut(node, -1)
    requires forall i :: 0 <= i < |Layout(node)| ==> Stands(Layout(node)[i].content)
    ensures Document(LinesOf(Join(Printed(Layout(node)), "\n"))) == Success(Value(node))
  {
    var lines := Layout(node);
    BlockReads(node, -1, []);
    NoBreaks(lines);
    SplitUndoesJoin(Printed(lines), '\n');
    PrintedLinesRead(lines);
    DocumentReads(node, []);
    assert lines + [] == lines;
  }

  // ---------- double-quoted scalars ----------

  function EscapeChar(c: char): string {
    if c == '\\' then "\\\\" else if c == '"' then "\\\"" else [c]
  }

  /** The usual escaping of a text between double quotes. */
  function Escape(s: string): string {
    if s == "" then "" else EscapeChar(s[0]) + Escape(s[1..])
  }

  function Quote(s: string): string {
    "\"" + Escape(s) + "\""
  }

  /** Escaping the backslashes alone. */
  function DoubleBackslashes(s: string): string {
    if s == "" then ""
    else (if s[0] == '\\' then "\\\\" else [s[0]]) + DoubleBackslashes(s[1..])
  }

  lemma {:induction false} QuotesUnescaped(s: string)
    ensures ReplacePair(Escape(s), '\\', '"', '"') == DoubleBackslashes(s)
    decreases |s|
  {
    if s != "" {
      var rest := Escape(s[1..]);
      QuotesUnescaped(s[1..]);
      assert Escape(s) == EscapeChar(s[0]) + rest;
      QuoteUnescaped(s[0], rest);
    }
  }

  lemma {:induction false} QuoteUnescaped(c: char, rest: string)
    requires rest == "" || rest[0] != '"'
    ensures ReplacePair(EscapeChar(c) + rest, '\\', '"', '"') ==
            (if c == '\\' then "\\\\" else [c]) + ReplacePair(rest, '\\', '"', '"')
  {
  }

  lemma {:induction false} BackslashesUnescaped(s: string)
    ensures ReplacePair(DoubleBackslashes(s), '\\', '\\', '\\') == s
    decreases |s|
  {
    if s != "" {
      var rest := DoubleBackslashes(s[1..]);
      BackslashesUnescaped(s[1..]);
      if s[0] == '\\' {
        assert DoubleBackslashes(s)[2..] == rest;
      } else {
        assert DoubleBackslashes(s)[1..] == rest;
      }
      assert [s[0]] + s[1..] == s;
    }
  }

  /** Every text, escaped and quoted, is read back as itself. */
  lemma {:induction false} QuotedScalarReads(s: string)
    ensures ParseScalar(Quote(s)) == Str(s)
  {
    var q := Quote(s);
    assert q[0] == '"' && q[|q| - 1] == '"';
    assert Inside(q) == Escape(s);
    QuotesUnescaped(s);
    BackslashesUnescaped(s);
  }

  lemma {:induction false} KeptEscapedChar(c: char, rest: string, escaped: bool)
    ensures Kept(EscapeChar(c) + rest, escaped, true) == EscapeChar(c) + Kept(rest, c == '\\', true)
  {
  }

  lemma {:induction false} KeptInsideQuotes(s: string, tail: string, escaped: bool)
    ensures Kept(Escape(s) + tail, escaped, true) ==
            Escape(s) + Kept(tail, if s == "" then escaped else EndsInBackslash(s), true)
    decreases |s|
  {
    if s == "" {
      assert Escape(s) + tail == tail;
    } else {
      var rest := Escape(s[1..]) + tail;
      assert Escape(s) + tail == EscapeChar(s[0]) + rest;
      KeptEscapedChar(s[0], rest, escaped);
      KeptInsideQuotes(s[1..], tail, s[0] == '\\');
      assert s[|s| - 1] == if |s| == 1 then s[0] else s[1..][|s| - 2];
    }
  }

  /**
   After a quoted scalar the scan is outside the quotes again, unless the text
   ends in a backslash: the closing quote is then taken for an escaped one.
   */
  lemma {:induction false} KeptAfterQuoted(s: string, rest: string)
    ensures Kept(Quote(s) + rest, false, false) == Quote(s) + Kept(rest, false, EndsInBackslash(s))
  {
    var body, closed := Escape(s) + (['"'] + rest), ['"'] + rest;
    assert Quote(s) + rest == ['"'] + body;
    assert Kept(['"'] + body, false, false) == ['"'] + Kept(body, false, true);
    KeptInsideQuotes(s, closed, false);
    KeptClosing(rest, EndsInBackslash(s));
  }

  lemma {:induction false} KeptClosing(rest: string, escaped: bool)
    ensures Kept(['"'] + rest, escaped, true) == ['"'] + Kept(rest, false, escaped)
  {
  }

  lemma {:induction false} CommentAfterQuoted(s: string, comment: string)
    ensures Kept(Quote(s) + " #" + comment, false, false) == Quote(s) + " " <==> !EndsInBackslash(s)
  {
    var rest := " #" + comment;
    assert Quote(s) + " #" + comment == Quote(s) + rest;
    KeptAfterQuoted(s, rest);
    var quoted := EndsInBackslash(s);
    var after := "#" + comment;
    assert rest[0] == ' ' && rest[1..] == after;
    assert Kept(rest, false, quoted) == " " + Kept(after, false, quoted);
    assert after[0] == '#';
  }

  /**
   A comment behind a quoted scalar is removed exactly when the scalar's text
   does not end in a backslash.
   */
  lemma {:induction false} CommentIsRemoved(prefix: string, s: string, comment: string)
    requires '"' !in prefix && '#' !in prefix && !EndsInBackslash(prefix)
    ensures Kept(prefix + (Quote(s) + " #" + comment), false, false) == prefix + (Quote(s) + " ") <==>
            !EndsInBackslash(s)
  {
    var line, bare := Quote(s) + " #" + comment, Quote(s) + " ";
    KeptPrefix(prefix, line, false);
    CommentAfterQuoted(s, comment);
    var kept := Kept(line, false, false);
    assert Kept(prefix + line, false, false) == prefix + kept;
    assert (prefix + kept)[|prefix|..] == kept && (prefix + bare)[|prefix|..] == bare;
  }

  // ---------- what is read of a line ----------

  /** How many double quotes without a backslash before them come before the place `i`. */
  function QuotesBefore(line: string, i: nat): nat
    requires i <= |line|
  {
    if i == 0 then 0
    else QuotesBefore(line, i - 1)
         + if line[i - 1] == '"' && (i == 1 || line[i - 2] != '\\') then 1 else 0
  }

  /** A comment sign outside double quotes. */
  ghost predicate StartsComment(line: string, i: nat)
    requires i < |line|
  {
    line[i] == '#' && QuotesBefore(line, i) % 2 == 0
  }

  /** `k` is the place of the first comment, or the end of the line. */
  ghost predicate CommentAt(line: string, k: nat) {
    k <= |line| && (k < |line| ==> StartsComment(line, k)) && forall i :: 0 <= i < k ==> !StartsComment(line, i)
  }

  lemma {:induction false} KeptFrom(line: string, i: nat) returns (k: nat)
    requires i <= |line| && forall j :: 0 <= j < i ==> !StartsComment(line, j)
    ensures i <= k && CommentAt(line, k)
    ensures Kept(line[i..], i > 0 && line[i - 1] == '\\', QuotesBefore(line, i) % 2 == 1) == line[i..k]
    decreases |line| - i
  {
    if i == |line| {
      k := i;
    } else if StartsComment(line, i) {
      k := i;
    } else {
      k := KeptFrom(line, i + 1);
      assert line[i..][1..] == line[i + 1..];
      assert [line[i]] + line[i + 1..k] == line[i..k];
    }
  }

  /** A line is kept up to its first comment sign outside double quotes. */
  lemma {:induction false} KeptIs(line: string) returns (k: nat)
    ensures CommentAt(line, k) && Kept(line, false, false) == line[..k]
  {
    k := KeptFrom(line, 0);
    assert line[0..] == line && line[0..k] == line[..k];
  }

  ghost predicate Blank(s: string) {
    forall i :: 0 <= i < |s| ==> Space(s[i])
  }

  /** What is left between the places `i` and `j` when the white space at both ends is taken off. */
  ghost predicate Between(s: string, i: nat, j: nat) {
    && i < j <= |s| && !Space(s[i]) && !Space(s[j - 1])
    && Blank(s[..i]) && Blank(s[j..])
  }

  lemma {:induction false} BlankTrims(s: string)
    requires Blank(s)
    ensures TrimStart(s) == TrimEnd(s) == ""
  {
    if s != "" {
      BlankTrims(s[1..]);
      BlankTrims(s[..|s| - 1]);
    }
  }

  lemma {:induction false} TrimStartIs(s: string, i: nat)
    requires i < |s| && !Space(s[i]) && Blank(s[..i])
    ensures TrimStart(s) == s[i..]
  {
    if i > 0 {
      assert Space(s[..i][0]);
      assert s[1..][..i - 1] == s[..i][1..];
      TrimStartIs(s[1..], i - 1);
    }
  }

  lemma {:induction false} TrimEndIs(s: string, j: nat)
    requires 0 < j <= |s| && !Space(s[j - 1]) && Blank(s[j..])
    ensures TrimEnd(s) == s[..j]
  {
    if j < |s| {
      assert Space(s[j..][|s| - 1 - j]);
      assert s[..|s| - 1][j..] == s[j..][..|s| - 1 - j];
      TrimEndIs(s[..|s| - 1], j);
    }
  }

  /** The white space of section 12.2 and 12.3 of ECMA-262, by code point, is what trimming takes off. */
  lemma {:induction false} WhiteSpaceIs(c: char)
    ensures Trim([c]) == (if c as int in {9, 10, 11, 12, 13, 32, 160, 5760, 8192, 8193, 8194, 8195, 8196, 8197, 8198,
                                          8199, 8200, 8201, 8202, 8232, 8233, 8239, 8287, 12288, 65279}
                          then "" else [c])
  {
    if Space(c) {
      BlankTrims([c]);
      BlankTrims("");
    } else {
      TrimStartIs([c], 0);
      TrimEndIs([c], 1);
    }
  }

  /** A line with nothing but white space before its comment is not there at all. */
  lemma {:induction false} BlankLineVanishes(text: string, k: nat)
    requires CommentAt(text, k) && Kept(text, false, false) == text[..k] && Blank(text[..k])
    ensures LineIn(text) == []
  {
    BlankTrims(text[..k]);
  }

  /**
   Any other line is what stands between the white space at both ends of what is
   kept of it, at the level of the white space before it.
   */
  lemma {:induction false} LineIs(text: string, k: nat, i: nat, j: nat)
    requires CommentAt(text, k) && Kept(text, false, false) == text[..k] && Between(text[..k], i, j)
    ensures LineIn(text) == [Line(i, text[i..j])]
  {
    var kept := text[..k];
    TrimEndIs(kept, j);
    var raw := kept[..j];
    assert raw[..i] == kept[..i] && raw[i..] == text[i..j];
    TrimStartIs(raw, i);
    assert raw[i..][|raw[i..]| - 1] == kept[j - 1];
    assert raw[i..][|raw[i..]|..] == "";
    TrimEndIs(raw[i..], |raw[i..]|);
    assert raw[i..][..|raw[i..]|] == raw[i..];
  }

  // ---------- what a single line says ----------

  lemma {:induction false} TrimDropsAround(front: string, s: string, back: string)
    requires Blank(front) && Blank(back) && Trim(s) == s
    ensures Trim(front + s + back) == s
  {
    var whole := front + s + back;
    if s == "" {
      BlankTrims(whole);
      BlankTrims("");
    } else {
      TrimmedEnds(s);
      assert whole[..|front|] == front && whole[|front|..] == s + back;
      TrimStartIs(whole, |front|);
      assert (s + back)[..|s|] == s && (s + back)[|s|..] == back;
      TrimEndIs(s + back, |s|);
    }
  }

  /** A key, which no colon interrupts, and what follows its colon, with any white space around both. */
  ghost predicate IsEntry(content: string, key: string, before: string, after: string, text: string) {
    && content == key + before + ":" + (after + text)
    && ':' !in key && Trim(key) == key && Trim(text) == text && Blank(before) && Blank(after)
  }

  lemma {:induction false} EntryParts(content: string, key: string, before: string, after: string, text: string)
    requires IsEntry(content, key, before, after, text)
    ensures Colon(content) == Some(|key + before|) && Key(Line(0, content)) == key
    ensures Trim(content[|key + before| + 1..]) == text
  {
    forall i | 0 <= i < |before|
      ensures before[i] != ':'
    {
      assert Space(before[i]);
    }
    ColonOf(key + before, after + text);
    assert content[..|key + before|] == key + before;
    assert content[|key + before| + 1..] == after + text;
    TrimDropsAround("", key, before);
    assert "" + key + before == key + before;
    TrimDropsAround(after, text, "");
    assert after + text + "" == after + text;
  }

  lemma {:induction false} NoDash(content: string)
    requires content != "-" && (|content| >= 2 ==> content[..2] != "- ")
    ensures !IsDash(content)
  {
    assert |content| >= 2 ==> content[..2] == [content[0], content[1]];
  }

  /**
   A line on its own that does not begin with a dash and a space, but has a colon,
   is one entry: its key, and the scalar behind the colon or an empty mapping.
   */
  lemma {:induction false} EntryReads(indent: nat, content: string, key: string, before: string, after: string,
                                      text: string)
    requires IsEntry(content, key, before, after, text)
    requires |content| >= 2 ==> content[..2] != "- "
    requires text != ">" && text != ">-" && text != "|" && text != "|-"
    ensures Document([Line(indent, content)])
         == Success(Obj(map[key := if text == "" then Obj(map[]) else ParseScalar(text)]))
  {
    EntryParts(content, key, before, after, text);
    NoDash(content);
    var rest := [Line(indent, content)];
    assert rest[1..] == [];
    var field := FieldFrom(rest);
    assert field == ValueFrom([], indent, text);
    assert map[][key := field.value] == map[key := field.value];
    assert FieldsFrom([], indent, map[key := field.value]) == Done(Obj(map[key := field.value]), []);
    assert FieldsFrom(rest, indent, map[]) == FieldsFrom([], indent, map[key := field.value]);
    assert BlockFrom(rest, indent) == FieldsFrom(rest, indent, map[]);
  }

  /** A line on its own that is a dash, or a dash and a space with anything behind them, is a list of one scalar. */
  lemma {:induction false} ItemReadsAlone(indent: nat, gap: string, text: string)
    requires Blank(gap) && TrimStart(text) == text
    requires if gap == "" then text == "" else gap[0] == ' '
    ensures Document([Line(indent, "-" + (gap + text))]) == Success(List([ParseScalar(text)]))
  {
    var content := "-" + (gap + text);
    assert content[1..] == gap + text;
    if text == "" {
      BlankTrims(gap);
      assert gap + text == gap;
    } else {
      TrimStartIsShorter(text);
      assert (gap + text)[..|gap|] == gap && (gap + text)[|gap|..] == text;
      TrimStartIs(gap + text, |gap|);
    }
    if gap != "" {
      assert content[1] == gap[0];
    }
    assert IsDash(content);
    var rest := [Line(indent, content)];
    assert rest[1..] == [] && ItemCount(rest, indent) == 1;
    assert rest[..1] == rest;
    assert ItemText(content) == text;
    assert ItemValues(rest) == [ParseScalar(text)];
    assert BlockFrom(rest, indent) == Done(List(ItemValues(rest)), []);
  }

  /** A line on its own that is neither is an error, and names itself. */
  lemma {:induction false} NeitherFails(indent: nat, content: string)
    requires ':' !in content && content != "-" && (|content| >= 2 ==> content[..2] != "- ")
    ensures Document([Line(indent, content)]) == Failure(Line(indent, content))
  {
    NoDash(content);
    var rest := [Line(indent, content)];
    assert FieldFrom(rest) == Failed(rest);
    assert FieldsFrom(rest, indent, map[]) == Failed(rest);
    assert BlockFrom(rest, indent) == Failed(rest);
  }
}
