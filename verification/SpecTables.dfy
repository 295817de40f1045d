/**
 The tables of the specification export (api/src/derive/spec-markdown.ts), proved
 against a reader of Markdown tables: it cuts a row at its unescaped pipes, drops
 the space on either side of a cell, and undoes the escapes.
 */
module SpecTables {
  import opened Wrappers
  import opened Text
  import opened SpecMarkdown

  // ---------- the reader ----------

  /** The pieces of a line between its unescaped pipes. */
  function Pieces(s: string, escaped: bool): (ps: seq<string>)
    ensures |ps| == Separators(s, escaped) + 1
  {
    if s == "" then [""]
    else
      var rest := Pieces(s[1..], !escaped && s[0] == '\\');
      if !escaped && s[0] == '|' then [""] + rest else [[s[0]] + rest[0]] + rest[1..]
  }

  function Inner(piece: string): string {
    if |piece| >= 2 && piece[0] == ' ' == piece[|piece| - 1] then piece[1..|piece| - 1] else piece
  }

  function TextsOf(pieces: seq<string>): seq<string> {
    seq(|pieces|, i requires 0 <= i < |pieces| => Unescape(Inner(pieces[i])))
  }

  /** The texts of a row: what stands before the first and after the last pipe does not count. */
  function ReadRow(line: string): seq<string> {
    var ps := Pieces(line, false);
    if |ps| < 2 then [] else TextsOf(ps[1..|ps| - 1])
  }

  // ---------- rows ----------

  /** Text a number prints as, or a fixed mark: nothing in it needs escaping. */
  predicate Unremarkable(s: string) {
    forall i :: 0 <= i < |s| ==> s[i] != '\\' && s[i] != '|' && s[i] != '\n' && s[i] != '\r'
  }

  /** `| a | b |` for any number of cells. */
  function RowFrom(cells: seq<string>): string {
    if cells == [] then "|" else "| " + cells[0] + " " + RowFrom(cells[1..])
  }

  /** `|---|---|` for any widths. */
  function RuleFrom(dashes: seq<string>): string {
    if dashes == [] then "|" else "|" + dashes[0] + RuleFrom(dashes[1..])
  }

  /** `n` cells between unescaped pipes. */
  ghost predicate HasCells(line: string, n: nat) {
    Separators(line, false) == n + 1
  }

  /** A cell that a reader takes for the text, and that breaks the line only where the text has a carriage return. */
  ghost predicate Says(cell: string, text: string) {
    IsCell(cell) && Unescape(cell) == text && '\n' !in cell && ('\r' in cell <==> '\r' in text)
  }

  ghost predicate CellsSay(cells: seq<string>, texts: seq<string>) {
    |cells| == |texts| && forall i :: 0 <= i < |cells| ==> Says(cells[i], texts[i])
  }

  ghost predicate HasReturn(texts: seq<string>) {
    exists i :: 0 <= i < |texts| && '\r' in texts[i]
  }

  /**
   A line that reads as exactly these texts. It is one line of Markdown, which ends
   lines at carriage returns too, exactly when none of the texts has one.
   */
  ghost predicate RowSays(line: string, texts: seq<string>) {
    && ReadRow(line) == texts && HasCells(line, |texts|)
    && '\n' !in line && ('\r' in line <==> HasReturn(texts))
  }

  lemma {:induction false} PiecesFirst(a: string, b: string, escaped: bool)
    requires Separators(a, escaped) == 0 && !EscapedAfter(a, escaped)
    ensures Pieces(a + ['|'] + b, escaped) == [a] + Pieces(b, false)
  {
    var s := a + ['|'] + b;
    if a == "" {
      assert s[0] == '|' && s[1..] == b;
    } else {
      assert s[0] == a[0] && s[1..] == a[1..] + ['|'] + b;
      PiecesFirst(a[1..], b, !escaped && a[0] == '\\');
      assert [a[0]] + a[1..] == a;
    }
  }

  lemma {:induction false} PaddedCell(cell: string)
    requires IsCell(cell)
    ensures IsCell(" " + cell + " ") && Inner(" " + cell + " ") == cell
  {
    assert " "[1..] == "";
    SeparatorsConcat(" ", cell, false);
    SeparatorsConcat(" " + cell, " ", false);
  }

  function Padded(cells: seq<string>): (ps: seq<string>)
    ensures |ps| == |cells|
    ensures forall i :: 0 <= i < |cells| ==> ps[i] == " " + cells[i] + " "
  {
    if cells == [] then [] else [" " + cells[0] + " "] + Padded(cells[1..])
  }

  /** What follows a row's opening pipe. */
  function AfterPipe(cells: seq<string>): string {
    if cells == [] then "" else " " + cells[0] + " " + ['|'] + AfterPipe(cells[1..])
  }

  lemma {:induction false} RowIsPiped(cells: seq<string>)
    ensures RowFrom(cells) == ['|'] + AfterPipe(cells)
  {
    if cells != [] {
      RowIsPiped(cells[1..]);
      assert "| " + cells[0] + " " == ['|'] + (" " + cells[0] + " ");
    }
  }

  lemma {:induction false} AfterPipePieces(cells: seq<string>)
    requires forall i :: 0 <= i < |cells| ==> IsCell(cells[i])
    ensures Pieces(AfterPipe(cells), false) == Padded(cells) + [""]
  {
    if cells != [] {
      AfterPipePieces(cells[1..]);
      PaddedCell(cells[0]);
      PiecesFirst(" " + cells[0] + " ", AfterPipe(cells[1..]), false);
    }
  }

  /** The pieces of a row are its padded cells, between two empty ends. */
  lemma {:induction false} RowPieces(cells: seq<string>)
    requires forall i :: 0 <= i < |cells| ==> IsCell(cells[i])
    ensures Pieces(RowFrom(cells), false) == [""] + Padded(cells) + [""]
  {
    RowIsPiped(cells);
    AfterPipePieces(cells);
    PiecesFirst("", AfterPipe(cells), false);
    assert "" + ['|'] + AfterPipe(cells) == RowFrom(cells);
  }

  lemma {:induction false} RowBreaks(cells: seq<string>)
    ensures forall c :: c in RowFrom(cells) ==> c == '|' || c == ' ' || exists i :: 0 <= i < |cells| && c in cells[i]
    ensures forall i, c :: 0 <= i < |cells| && c in cells[i] ==> c in RowFrom(cells)
  {
    if cells != [] {
      RowBreaks(cells[1..]);
      var rest := cells[1..];
      forall c | c in RowFrom(cells)
        ensures c == '|' || c == ' ' || exists i :: 0 <= i < |cells| && c in cells[i]
      {
        if c in RowFrom(rest) && c != '|' && c != ' ' {
          var i :| 0 <= i < |rest| && c in rest[i];
          assert c in cells[i + 1];
        } else if c in cells[0] {
        }
      }
      forall i, c | 0 <= i < |cells| && c in cells[i]
        ensures c in RowFrom(cells)
      {
        if i > 0 {
          assert rest[i - 1] == cells[i];
        }
      }
    }
  }

  lemma {:induction false} RowReturns(cells: seq<string>, texts: seq<string>)
    requires CellsSay(cells, texts)
    ensures '\n' !in RowFrom(cells) && ('\r' in RowFrom(cells) <==> HasReturn(texts))
  {
    RowBreaks(cells);
    if '\r' in RowFrom(cells) {
      var i :| 0 <= i < |cells| && '\r' in cells[i];
      assert Says(cells[i], texts[i]);
    }
    if HasReturn(texts) {
      var i :| 0 <= i < |texts| && '\r' in texts[i];
      assert Says(cells[i], texts[i]);
    }
  }

  lemma {:induction false} PaddedTexts(cells: seq<string>, texts: seq<string>)
    requires CellsSay(cells, texts)
    ensures TextsOf(Padded(cells)) == texts
  {
    forall i | 0 <= i < |cells|
      ensures Unescape(Inner(Padded(cells)[i])) == texts[i]
    {
      assert Says(cells[i], texts[i]);
      PaddedCell(cells[i]);
    }
  }

  lemma {:induction false} RowTexts(cells: seq<string>, texts: seq<string>)
    requires CellsSay(cells, texts)
    ensures ReadRow(RowFrom(cells)) == texts && HasCells(RowFrom(cells), |texts|)
  {
    var ps := Pieces(RowFrom(cells), false);
    RowPieces(cells) by {
      assert forall i :: 0 <= i < |cells| ==> Says(cells[i], texts[i]);
    }
    PaddedTexts(cells, texts);
    assert ps[1..|ps| - 1] == Padded(cells);
  }

  /** A row of cells reads as the texts of the cells. */
  lemma {:induction false} RowReads(cells: seq<string>, texts: seq<string>)
    requires CellsSay(cells, texts)
    ensures RowSays(RowFrom(cells), texts)
  {
    RowTexts(cells, texts);
    RowReturns(cells, texts);
  }

  // ---------- what single cells say ----------

  lemma {:induction false} UnremarkableSays(s: string)
    requires Unremarkable(s)
    ensures Says(s, s)
  {
    if s != "" {
      assert Unremarkable(s[1..]) by {
        assert forall i :: 0 <= i < |s| - 1 ==> s[1..][i] == s[i + 1];
      }
      UnremarkableSays(s[1..]);
      assert s == [s[0]] + s[1..];
    }
  }

  /** A text with its newlines turned into spaces. */
  function OnOneLine(s: string): string {
    ReplaceAll(s, '\n', " ")
  }

  lemma {:induction false} ReturnsStay(s: string)
    ensures '\r' in OnOneLine(s) <==> '\r' in s
  {
    if s != "" {
      ReturnsStay(s[1..]);
      assert s == [s[0]] + s[1..];
    }
  }

  /** Any text, escaped, reads as that text on one line. */
  lemma {:induction false} EscapeSays(s: string)
    ensures Says(EscapeMarkdown(s), OnOneLine(s))
  {
    EscapeIsCell(s);
    UnescapeUndoes(s);
    LineBreaks(s);
    ReturnsStay(s);
  }

  function Fmt(s: Option<string>): string {
    if s == None || s == Some("") then "—" else EscapeMarkdown(s.value)
  }

  function FmtText(s: Option<string>): string {
    if s == None || s == Some("") then "—" else OnOneLine(s.value)
  }

  lemma {:induction false} FmtSays(s: Option<string>)
    ensures Says(Fmt(s), FmtText(s))
  {
    if s == None || s == Some("") {
      UnremarkableSays("—");
    } else {
      EscapeSays(s.value);
    }
  }

  // ---------- tables ----------

  ghost predicate RowsSay(rows: seq<string>, texts: seq<seq<string>>) {
    |rows| == |texts| && forall k :: 0 <= k < |rows| ==> RowSays(rows[k], texts[k])
  }

  /** A table that reads as these columns and these rows of texts, every line of it as wide as the header. */
  ghost predicate TableSays(table: seq<string>, columns: seq<string>, texts: seq<seq<string>>) {
    && 2 <= |table|
    && RowSays(table[0], columns)
    && IsRule(table[1], |columns|)
    && RowsSay(table[2..], texts) && forall k :: 0 <= k < |texts| ==> |texts[k]| == |columns|
  }

  lemma {:induction false} OneMoreRow(rows: seq<string>, texts: seq<seq<string>>, row: string, text: seq<string>)
    requires RowsSay(rows, texts) && RowSays(row, text)
    ensures RowsSay(rows + [row], texts + [text])
  {
  }

  /** What a rule has for each column. */
  ghost predicate IsDashes(s: string) {
    s != "" && forall i :: 0 <= i < |s| ==> s[i] == '-'
  }

  /** A line that is nothing but dashes between `n + 1` pipes. */
  ghost predicate IsRule(line: string, n: nat) {
    var ps := Pieces(line, false);
    && |ps| == n + 2 && ps[0] == ps[n + 1] == "" && (forall i :: 0 < i <= n ==> IsDashes(ps[i]))
    && '\n' !in line && '\r' !in line
  }

  ghost predicate PlainHead(columns: seq<string>, dashes: seq<string>) {
    && |columns| == |dashes|
    && forall i :: 0 <= i < |columns| ==> Unremarkable(columns[i]) && IsDashes(dashes[i])
  }

  lemma {:induction false} DashesAreCell(s: string)
    requires forall i :: 0 <= i < |s| ==> s[i] == '-'
    ensures IsCell(s) && '\n' !in s && '\r' !in s
  {
    if s != "" {
      DashesAreCell(s[1..]);
    }
  }

  lemma {:induction false} OneMoreColumn(dash: string, after: string, n: nat)
    requires IsDashes(dash) && IsRule(['|'] + after, n)
    ensures IsRule(['|'] + (dash + ['|'] + after), n + 1)
  {
    DashesAreCell(dash);
    PiecesFirst("", after, false);
    PiecesFirst(dash, after, false);
    PiecesFirst("", dash + ['|'] + after, false);
    assert "" + ['|'] + after == ['|'] + after;
    assert "" + ['|'] + (dash + ['|'] + after) == ['|'] + (dash + ['|'] + after);
    var ps := Pieces(after, false);
    assert Pieces(['|'] + after, false)[1..] == ps;
    assert Pieces(['|'] + (dash + ['|'] + after), false) == [""] + ([dash] + ps);
  }

  lemma {:induction false} RuleReads(dashes: seq<string>)
    requires forall i :: 0 <= i < |dashes| ==> IsDashes(dashes[i])
    ensures RuleFrom(dashes) != "" && RuleFrom(dashes)[0] == '|' && IsRule(RuleFrom(dashes), |dashes|)
  {
    if dashes == [] {
      PiecesFirst("", "", false);
      assert "" + ['|'] + "" == "|";
    } else {
      RuleReads(dashes[1..]);
      var after := RuleFrom(dashes[1..])[1..];
      assert ['|'] + after == RuleFrom(dashes[1..]);
      OneMoreColumn(dashes[0], after, |dashes| - 1);
      assert RuleFrom(dashes) == ['|'] + (dashes[0] + ['|'] + after);
    }
  }

  /** A header, a rule and rows that each say their texts make a table. */
  lemma {:induction false} TableReads(
    columns: seq<string>, dashes: seq<string>, rows: seq<string>, texts: seq<seq<string>>)
    requires PlainHead(columns, dashes) && RowsSay(rows, texts)
    requires forall k :: 0 <= k < |texts| ==> |texts[k]| == |columns|
    ensures TableSays([RowFrom(columns), RuleFrom(dashes)] + rows, columns, texts)
  {
    forall i | 0 <= i < |columns|
      ensures Says(columns[i], columns[i])
    {
      UnremarkableSays(columns[i]);
    }
    RowReads(columns, columns);
    RuleReads(dashes);
    assert ([RowFrom(columns), RuleFrom(dashes)] + rows)[2..] == rows;
  }

  /** No line of a table breaks it. */
  lemma {:induction false} TableUnbroken(table: seq<string>, columns: seq<string>, texts: seq<seq<string>>)
    requires TableSays(table, columns, texts)
    ensures Unbroken(table)
  {
    forall i | 0 <= i < |table|
      ensures '\n' !in table[i]
    {
      if i >= 2 {
        assert RowSays(table[2..][i - 2], texts[i - 2]);
      }
    }
  }

  /** A section of which every line is one: joining the document's lines and splitting them again gives it back. */
  ghost predicate Unbroken(section: seq<string>) {
    forall i :: 0 <= i < |section| ==> '\n' !in section[i]
  }

  lemma {:induction false} UnbrokenSplits(section: seq<string>)
    requires section != [] && Unbroken(section)
    ensures Split(Join(section, "\n"), '\n') == section
  {
    SplitUndoesJoin(section, '\n');
  }

  // ---------- the three tables of the document ----------

  /** What a number prints as. */
  type NumberText = s: string | Unremarkable(s)

  datatype KeyActivity = KeyActivity(rank: NumberText, name: string, composite: NumberText, marked: bool)

  datatype KpiLink = KpiLink(activityName: string, kpiName: string, direction: string, strength: NumberText)

  datatype Capability = Capability(
    name: string, description: Option<string>, neededBy: NumberText, supportingSystems: NumberText,
    contextName: Option<string>)

  /** A run of dashes, as the rule under a header has for each column. */
  function Dashes(n: nat): string {
    seq(n, _ => '-')
  }

  /** The fixed lines of a section: its heading, what an empty one says, and its table's heading, header and rule. */
  datatype Layout = Layout(
    heading: seq<string>, empty: string, subheading: seq<string>, columns: seq<string>, dashes: seq<string>)

  const KEY_LAYOUT := Layout(
    ["## Key Activities", ""], "_No activities ranked._", [],
    ["Rank", "Name", "Composite Score", "Key Activity"],
    [Dashes(6), Dashes(6), Dashes(17), Dashes(14)])

  const KPI_LAYOUT := Layout(
    ["## KPI Impact", ""], "_No KPI impact links._", ["### Coverage Matrix", ""],
    ["Activity", "KPI", "Direction", "Strength"],
    [Dashes(10), Dashes(5), Dashes(11), Dashes(10)])

  const CAPABILITY_LAYOUT := Layout(
    ["## System Model", ""], "_No capabilities authored._", ["### Capabilities", ""],
    ["Name", "Description", "Needed By", "Supporting Systems", "Assigned Context"],
    [Dashes(6), Dashes(13), Dashes(11), Dashes(20), Dashes(17)])

  ghost predicate PlainLayout(l: Layout) {
    PlainHead(l.columns, l.dashes) && PlainLines(l.heading, l.subheading, l.empty)
  }

  ghost predicate PlainLines(heading: seq<string>, subheading: seq<string>, empty: string) {
    Unbroken(heading) && Unbroken(subheading) && '\n' !in empty && empty != "" && empty[0] == '_'
  }

  function Mark(marked: bool): string {
    if marked then "✓" else ""
  }

  function KeyCells(a: KeyActivity): seq<string> {
    [a.rank, EscapeMarkdown(a.name), a.composite, Mark(a.marked)]
  }

  function KeyTexts(a: KeyActivity): seq<string> {
    [a.rank, OnOneLine(a.name), a.composite, Mark(a.marked)]
  }

  function KpiCells(m: KpiLink): seq<string> {
    [EscapeMarkdown(m.activityName), EscapeMarkdown(m.kpiName), EscapeMarkdown(m.direction), m.strength]
  }

  function KpiTexts(m: KpiLink): seq<string> {
    [OnOneLine(m.activityName), OnOneLine(m.kpiName), OnOneLine(m.direction), m.strength]
  }

  function CapabilityCells(c: Capability): seq<string> {
    [EscapeMarkdown(c.name), Fmt(c.description), c.neededBy, c.supportingSystems, Fmt(c.contextName)]
  }

  function CapabilityTexts(c: Capability): seq<string> {
    [OnOneLine(c.name), FmtText(c.description), c.neededBy, c.supportingSystems, FmtText(c.contextName)]
  }

  lemma {:induction false} KeyCellsSay(a: KeyActivity)
    ensures CellsSay(KeyCells(a), KeyTexts(a))
  {
    UnremarkableSays(a.rank);
    EscapeSays(a.name);
    UnremarkableSays(a.composite);
    UnremarkableSays(Mark(a.marked));
  }

  lemma {:induction false} KpiCellsSay(m: KpiLink)
    ensures CellsSay(KpiCells(m), KpiTexts(m))
  {
    EscapeSays(m.activityName);
    EscapeSays(m.kpiName);
    EscapeSays(m.direction);
    UnremarkableSays(m.strength);
  }

  lemma {:induction false} CapabilityCellsSay(c: Capability)
    ensures CellsSay(CapabilityCells(c), CapabilityTexts(c))
  {
    EscapeSays(c.name);
    FmtSays(c.description);
    UnremarkableSays(c.neededBy);
    UnremarkableSays(c.supportingSystems);
    FmtSays(c.contextName);
  }

  lemma {:induction false} PlainKeyLayout()
    ensures PlainLayout(KEY_LAYOUT)
  {
    PlainKeyHead();
    PlainKeyLines();
  }

  lemma {:induction false} PlainKeyHead()
    ensures PlainHead(
              ["Rank", "Name", "Composite Score", "Key Activity"],
              [Dashes(6), Dashes(6), Dashes(17), Dashes(14)])
  {
    assert Unremarkable("Rank") && Unremarkable("Name");
    assert Unremarkable("Composite Score");
    assert Unremarkable("Key Activity");
  }

  lemma {:induction false} PlainKeyLines()
    ensures PlainLines(["## Key Activities", ""], [], "_No activities ranked._")
  {
  }

  lemma {:induction false} PlainKpiLayout()
    ensures PlainLayout(KPI_LAYOUT)
  {
    PlainKpiHead();
    PlainKpiLines();
  }

  lemma {:induction false} PlainKpiHead()
    ensures PlainHead(
              ["Activity", "KPI", "Direction", "Strength"], [Dashes(10), Dashes(5), Dashes(11), Dashes(10)])
  {
    assert Unremarkable("Activity") && Unremarkable("KPI");
    assert Unremarkable("Direction") && Unremarkable("Strength");
  }

  lemma {:induction false} PlainKpiLines()
    ensures PlainLines(["## KPI Impact", ""], ["### Coverage Matrix", ""], "_No KPI impact links._")
  {
  }

  lemma {:induction false} PlainCapabilityLayout()
    ensures PlainLayout(CAPABILITY_LAYOUT)
  {
    PlainCapabilityHead();
    PlainCapabilityLines();
  }

  lemma {:induction false} PlainCapabilityHead()
    ensures PlainHead(
              ["Name", "Description", "Needed By", "Supporting Systems", "Assigned Context"],
              [Dashes(6), Dashes(13), Dashes(11), Dashes(20), Dashes(17)])
  {
    assert Unremarkable("Name") && Unremarkable("Description") && Unremarkable("Needed By");
    assert Unremarkable("Supporting Systems");
    assert Unremarkable("Assigned Context");
  }

  lemma {:induction false} PlainCapabilityLines()
    ensures PlainLines(["## System Model", ""], ["### Capabilities", ""], "_No capabilities authored._")
  {
  }

  // ---------- the rendered sections ----------

  /** A text the renderer shows: absent and empty ones count as no text. */
  predicate Shown(s: Option<string>) {
    s != None && s != Some("")
  }

  const NOTICE := "*(section unavailable: "

  function Notice(reason: string): string {
    NOTICE + EscapeMarkdown(reason) + ")*"
  }

  function KeyTable(activities: seq<KeyActivity>): seq<seq<string>> {
    seq(|activities|, k requires 0 <= k < |activities| => KeyTexts(activities[k]))
  }

  function KpiTable(links: seq<KpiLink>): seq<seq<string>> {
    seq(|links|, k requires 0 <= k < |links| => KpiTexts(links[k]))
  }

  function CapabilityTable(capabilities: seq<Capability>): seq<seq<string>> {
    seq(|capabilities|, k requires 0 <= k < |capabilities| => CapabilityTexts(capabilities[k]))
  }

  /** A section that is one notice, whose middle reads as the reason. */
  ghost predicate NoticeSection(section: seq<string>, heading: seq<string>, reason: string) {
    && |section| == |heading| + 2 && section[..|heading|] == heading && section[|heading| + 1] == ""
    && exists shown :: Says(shown, OnOneLine(reason)) && section[|heading|] == "*(section unavailable: " + shown + ")*"
  }

  /** A section that is a heading, one table with these texts, and a blank line. */
  ghost predicate TableSection(
    section: seq<string>, heading: seq<string>, columns: seq<string>, texts: seq<seq<string>>)
  {
    && |heading| < |section| && section[..|heading|] == heading && section[|section| - 1] == ""
    && TableSays(section[|heading|..|section| - 1], columns, texts)
  }

  /**
   What a reader finds in a section: the notice of a degraded one, the fixed text
   of an empty one, or a table with the texts of its records.
   */
  ghost predicate SectionSays(section: seq<string>, l: Layout, degraded: Option<string>, texts: seq<seq<string>>) {
    && Unbroken(section)
    && if degraded != None && degraded != Some("") then NoticeSection(section, l.heading, degraded.value)
       else if texts == [] then section == l.heading + [l.empty, ""]
       else TableSection(section, l.heading + l.subheading, l.columns, texts)
  }

  lemma {:induction false} NoticeIsSection(lines: seq<string>, heading: seq<string>, reason: string)
    requires Unbroken(heading)
    ensures var lines' := lines + heading + [Notice(reason), ""];
            && lines'[..|lines|] == lines
            && NoticeSection(lines'[|lines|..], heading, reason) && Unbroken(lines'[|lines|..])
  {
    var lines' := lines + heading + [Notice(reason), ""];
    assert lines'[|lines|..] == heading + [Notice(reason), ""];
    EscapeSays(reason);
  }

  lemma {:induction false} EmptyIsSection(lines: seq<string>, heading: seq<string>, empty: string)
    requires Unbroken(heading) && '\n' !in empty
    ensures var lines' := lines + heading + [empty, ""];
            && lines'[..|lines|] == lines
            && lines'[|lines|..] == heading + [empty, ""] && Unbroken(lines'[|lines|..])
  {
    var lines' := lines + heading + [empty, ""];
    assert lines'[|lines|..] == heading + [empty, ""];
  }

  lemma {:induction false} TableIsSection(
    lines: seq<string>, heading: seq<string>, columns: seq<string>, dashes: seq<string>,
    head: seq<string>, filled: seq<string>, texts: seq<seq<string>>)
    requires Unbroken(heading) && PlainHead(columns, dashes)
    requires head == lines + heading + [RowFrom(columns), RuleFrom(dashes)]
    requires |head| <= |filled| && filled[..|head|] == head && RowsSay(filled[|head|..], texts)
    requires forall k :: 0 <= k < |texts| ==> |texts[k]| == |columns|
    ensures var lines' := filled + [""];
            && |lines| <= |lines'| && lines'[..|lines|] == lines
            && TableSection(lines'[|lines|..], heading, columns, texts) && Unbroken(lines'[|lines|..])
  {
    var rows := filled[|head|..];
    var table := [RowFrom(columns), RuleFrom(dashes)] + rows;
    TableReads(columns, dashes, rows, texts);
    TableUnbroken(table, columns, texts);
    SectionLines(lines, heading, table, filled);
  }

  lemma {:induction false} SectionLines(
    lines: seq<string>, heading: seq<string>, table: seq<string>, filled: seq<string>)
    requires filled == lines + heading + table
    ensures (filled + [""])[..|lines|] == lines && (filled + [""])[|lines|..] == heading + table + [""]
    ensures (heading + table + [""])[|heading|..|heading| + |table|] == table
  {
  }

  /** One row of each list of cells; every row reads as its texts. */
  method TableRows(lines: seq<string>, cells: seq<seq<string>>, ghost texts: seq<seq<string>>)
    returns (lines': seq<string>)
    requires |cells| == |texts| && forall k :: 0 <= k < |cells| ==> CellsSay(cells[k], texts[k])
    ensures |lines'| == |lines| + |cells| && lines'[..|lines|] == lines
    ensures RowsSay(lines'[|lines|..], texts)
  {
    lines' := lines;
    ghost var rows: seq<string> := [];
    for i := 0 to |cells|
      invariant |rows| == i && lines' == lines + rows
      invariant RowsSay(rows, texts[..i])
    {
      var row := RowFrom(cells[i]);
      RowReads(cells[i], texts[i]);
      OneMoreRow(rows, texts[..i], row, texts[i]);
      assert texts[..i + 1] == texts[..i] + [texts[i]];
      rows := rows + [row];
      lines' := lines' + [row];
    }
    assert texts[..|cells|] == texts;
    assert lines'[|lines|..] == rows;
  }

  /** The form that the three sections share. */
  method RenderSection(l: Layout, lines: seq<string>, degraded: Option<string>, cells: seq<seq<string>>,
                       ghost texts: seq<seq<string>>)
    returns (lines': seq<string>)
    requires PlainLayout(l)
    requires |cells| == |texts| && forall k :: 0 <= k < |cells| ==> CellsSay(cells[k], texts[k])
    requires forall k :: 0 <= k < |texts| ==> |texts[k]| == |l.columns|
    ensures |lines| <= |lines'| && lines'[..|lines|] == lines
    ensures SectionSays(lines'[|lines|..], l, degraded, texts)
  {
    lines' := lines + l.heading;
    if Shown(degraded) {
      NoticeIsSection(lines, l.heading, degraded.value);
      lines' := lines' + [Notice(degraded.value), ""];
    } else if cells == [] {
      EmptyIsSection(lines, l.heading, l.empty);
      lines' := lines' + [l.empty, ""];
    } else {
      lines' := lines' + l.subheading;
      assert lines' == lines + (l.heading + l.subheading);
      lines' := lines' + [RowFrom(l.columns), RuleFrom(l.dashes)];
      ghost var head := lines';
      lines' := TableRows(lines', cells, texts);
      TableIsSection(lines, l.heading + l.subheading, l.columns, l.dashes, head, lines', texts);
      lines' := lines' + [""];
    }
  }

  method RenderKeyActivities(lines: seq<string>, degraded: Option<string>, activities: seq<KeyActivity>)
    returns (lines': seq<string>)
    ensures |lines| <= |lines'| && lines'[..|lines|] == lines
    ensures SectionSays(lines'[|lines|..], KEY_LAYOUT, degraded, KeyTable(activities))
  {
    PlainKeyLayout();
    var cells := seq(|activities|, k requires 0 <= k < |activities| => KeyCells(activities[k]));
    forall k | 0 <= k < |activities|
      ensures CellsSay(cells[k], KeyTable(activities)[k])
    {
      KeyCellsSay(activities[k]);
    }
    lines' := RenderSection(KEY_LAYOUT, lines, degraded, cells, KeyTable(activities));
  }

  method RenderCoverageMatrix(lines: seq<string>, degraded: Option<string>, links: seq<KpiLink>)
    returns (lines': seq<string>)
    ensures |lines| <= |lines'| && lines'[..|lines|] == lines
    ensures SectionSays(lines'[|lines|..], KPI_LAYOUT, degraded, KpiTable(links))
  {
    PlainKpiLayout();
    var cells := seq(|links|, k requires 0 <= k < |links| => KpiCells(links[k]));
    forall k | 0 <= k < |links|
      ensures CellsSay(cells[k], KpiTable(links)[k])
    {
      KpiCellsSay(links[k]);
    }
    lines' := RenderSection(KPI_LAYOUT, lines, degraded, cells, KpiTable(links));
  }

  method RenderCapabilities(lines: seq<string>, degraded: Option<string>, capabilities: seq<Capability>)
    returns (lines': seq<string>)
    ensures |lines| <= |lines'| && lines'[..|lines|] == lines
    ensures SectionSays(lines'[|lines|..], CAPABILITY_LAYOUT, degraded, CapabilityTable(capabilities))
  {
    PlainCapabilityLayout();
    var cells := seq(|capabilities|, k requires 0 <= k < |capabilities| => CapabilityCells(capabilities[k]));
    forall k | 0 <= k < |capabilities|
      ensures CellsSay(cells[k], CapabilityTable(capabilities)[k])
    {
      CapabilityCellsSay(capabilities[k]);
    }
    lines' := RenderSection(CAPABILITY_LAYOUT, lines, degraded, cells, CapabilityTable(capabilities));
  }

  // ---------- what the lines determine ----------

  lemma {:induction false} SameNotice(heading: seq<string>, section: seq<string>, reason: string, other: string)
    requires NoticeSection(section, heading, reason) && NoticeSection(section, heading, other)
    ensures OnOneLine(reason) == OnOneLine(other)
  {
    var line := section[|heading|];
    var shown :| Says(shown, OnOneLine(reason)) && line == NOTICE + shown + ")*";
    var shown' :| Says(shown', OnOneLine(other)) && line == NOTICE + shown' + ")*";
    assert shown == line[|NOTICE|..|line| - 2] == shown';
  }

  lemma {:induction false} SameTable(
    table: seq<string>, columns: seq<string>, texts: seq<seq<string>>, others: seq<seq<string>>)
    requires TableSays(table, columns, texts) && TableSays(table, columns, others)
    ensures texts == others
  {
    forall k | 0 <= k < |texts|
      ensures texts[k] == others[k]
    {
      assert RowSays(table[2..][k], texts[k]) && RowSays(table[2..][k], others[k]);
    }
  }

  /**
   Two documents whose section has the same lines agree on it: both degraded for
   the same reason, or with the same texts in the same rows.
   */
  lemma {:induction false} SectionDetermines(
    section: seq<string>, l: Layout,
    degraded: Option<string>, texts: seq<seq<string>>, degraded': Option<string>, texts': seq<seq<string>>)
    requires PlainLayout(l) && SectionSays(section, l, degraded, texts) && SectionSays(section, l, degraded', texts')
    ensures Shown(degraded) <==> Shown(degraded')
    ensures if Shown(degraded) then OnOneLine(degraded.value) == OnOneLine(degraded'.value) else texts == texts'
  {
    if Shown(degraded) && Shown(degraded') {
      SameNotice(l.heading, section, degraded.value, degraded'.value);
    } else if !Shown(degraded) && !Shown(degraded') && texts != [] && texts' != [] {
      SameTable(section[|l.heading + l.subheading|..|section| - 1], l.columns, texts, texts');
    }
  }

  lemma {:induction false} OneLineStays(s: string)
    requires '\n' !in s
    ensures OnOneLine(s) == s
  {
    ReplaceNewlines(s);
  }

  /** Key activities whose names have no newline are read back from the section, whole and in order. */
  lemma {:induction false} KeyActivitiesReadBack(
    section: seq<string>, activities: seq<KeyActivity>, others: seq<KeyActivity>)
    requires SectionSays(section, KEY_LAYOUT, None, KeyTable(activities))
    requires SectionSays(section, KEY_LAYOUT, None, KeyTable(others))
    requires forall k :: 0 <= k < |activities| ==> '\n' !in activities[k].name
    requires forall k :: 0 <= k < |others| ==> '\n' !in others[k].name
    ensures activities == others
  {
    PlainKeyLayout();
    SectionDetermines(section, KEY_LAYOUT, None, KeyTable(activities), None, KeyTable(others));
    forall k | 0 <= k < |activities|
      ensures activities[k] == others[k]
    {
      assert KeyTable(activities)[k] == KeyTable(others)[k];
      SameKeyTexts(activities[k], others[k]);
    }
  }

  lemma {:induction false} SameKeyTexts(a: KeyActivity, b: KeyActivity)
    requires KeyTexts(a) == KeyTexts(b) && '\n' !in a.name && '\n' !in b.name
    ensures a == b
  {
    OneLineStays(a.name);
    OneLineStays(b.name);
    assert KeyTexts(a)[0] == KeyTexts(b)[0] && KeyTexts(a)[1] == KeyTexts(b)[1];
    assert KeyTexts(a)[2] == KeyTexts(b)[2] && KeyTexts(a)[3] == KeyTexts(b)[3];
  }

  // ---------- which text stands in which column ----------

  /** A key activity's texts under the headings of its table; the check mark stands for a marked one. */
  lemma {:induction false} KeyColumns(a: KeyActivity)
    ensures var columns, texts := KEY_LAYOUT.columns, KeyTexts(a);
            && |columns| == |texts| == 4
            && columns[0] == "Rank" && texts[0] == a.rank
            && columns[1] == "Name" && texts[1] == OnOneLine(a.name)
            && columns[2] == "Composite Score" && texts[2] == a.composite
            && columns[3] == "Key Activity" && (texts[3] != "" <==> a.marked)
    ensures a.marked ==> |KeyTexts(a)[3]| == 1 && KeyTexts(a)[3][0] as int == 0x2713
  {
  }

  lemma {:induction false} KpiColumns(m: KpiLink)
    ensures var columns, texts := KPI_LAYOUT.columns, KpiTexts(m);
            && |columns| == |texts| == 4
            && columns[0] == "Activity" && texts[0] == OnOneLine(m.activityName)
            && columns[1] == "KPI" && texts[1] == OnOneLine(m.kpiName)
            && columns[2] == "Direction" && texts[2] == OnOneLine(m.direction)
            && columns[3] == "Strength" && texts[3] == m.strength
  {
  }

  lemma {:induction false} CapabilityColumns(c: Capability)
    ensures var columns, texts := CAPABILITY_LAYOUT.columns, CapabilityTexts(c);
            && |columns| == |texts| == 5
            && columns[0] == "Name" && texts[0] == OnOneLine(c.name)
            && columns[1] == "Description" && IsShownAs(c.description, texts[1])
            && columns[2] == "Needed By" && texts[2] == c.neededBy
            && columns[3] == "Supporting Systems" && texts[3] == c.supportingSystems
            && columns[4] == "Assigned Context" && IsShownAs(c.contextName, texts[4])
  {
  }

  /** A missing or empty text shows as an em dash. */
  ghost predicate IsShownAs(s: Option<string>, text: string) {
    if s == None || s == Some("") then |text| == 1 && text[0] as int == 0x2014 else text == OnOneLine(s.value)
  }

  /** A text on one line has a space wherever there was a newline, and is otherwise the same. */
  lemma {:induction false} OnOneLineIs(s: string)
    ensures |OnOneLine(s)| == |s|
    ensures forall i :: 0 <= i < |s| ==> OnOneLine(s)[i] == if s[i] == '\n' then ' ' else s[i]
  {
    if s != "" {
      OnOneLineIs(s[1..]);
    }
  }
}
