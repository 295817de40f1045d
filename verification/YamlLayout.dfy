/**
 The round trip of the YAML parser: nested mappings, scalar lists and block
 scalars, written with any indentation that puts children deeper than their
 parent and siblings level, are read back exactly.
 */
module YamlLayout {
  import opened Text
  import opened Wrappers
  import opened YamlBlock

  datatype Entry = Entry(key: string, node: Node)

  datatype Marker = Folded | FoldedStrip | Literal | LiteralStrip

  /** What follows a key. A nested block carries the indentation it is written at. */
  datatype Node =
    | Scalar(text: string)
    | BlockScalar(marker: Marker, lines: seq<Line>)
    | Items(indent: nat, items: seq<string>)
    | Mapping(indent: nat, entries: seq<Entry>)

  // ---------- writing ----------

  function MarkerText(m: Marker): string {
    match m
    case Folded => ">"
    case FoldedStrip => ">-"
    case Literal => "|"
    case LiteralStrip => "|-"
  }

  /** What the key's own line says after the colon. */
  function Beside(node: Node): string {
    match node
    case Scalar(text) => text
    case BlockScalar(marker, _) => MarkerText(marker)
    case _ => ""
  }

  function Head(e: Entry): string {
    e.key + ":" + (if Beside(e.node) == "" then "" else " " + Beside(e.node))
  }

  function ItemLine(indent: nat, item: string): Line {
    Line(indent, if item == "" then "-" else "- " + item)
  }

  function ItemLines(indent: nat, items: seq<string>): seq<Line> {
    if items == [] then []
    else [ItemLine(indent, items[0])] + ItemLines(indent, items[1..])
  }

  /** The lines below the key. */
  function Layout(node: Node): seq<Line>
    decreases node, 0
  {
    match node
    case Scalar(_) => []
    case BlockScalar(_, lines) => lines
    case Items(indent, items) => ItemLines(indent, items)
    case Mapping(indent, entries) => EntryLines(indent, entries)
  }

  function EntryLines(indent: nat, entries: seq<Entry>): seq<Line>
    decreases entries, 0
  {
    if entries == [] then []
    else [Line(indent, Head(entries[0]))] + Layout(entries[0].node) + EntryLines(indent, entries[1..])
  }

  // ---------- what it means ----------

  function Value(node: Node): Yaml
    decreases node, 0
  {
    match node
    case Scalar(text) => ParseScalar(text)
    case BlockScalar(marker, lines) =>
      Str(Join(Contents(lines), if marker == Folded || marker == FoldedStrip then " " else "\n"))
    case Items(_, items) => List(Scalars(items))
    case Mapping(_, entries) => Obj(Fields(entries, map[]))
  }

  function Scalars(items: seq<string>): seq<Yaml> {
    if items == [] then [] else [ParseScalar(items[0])] + Scalars(items[1..])
  }

  /** Later entries overwrite earlier ones with the same key. */
  function Fields(entries: seq<Entry>, obj: map<string, Yaml>): map<string, Yaml>
    decreases entries, 0
  {
    if entries == [] then obj
    else Fields(entries[1..], obj[entries[0].key := Value(entries[0].node)])
  }

  // ---------- well laid out ----------

  predicate PlainKey(key: string) {
    ':' !in key && Trim(key) == key
  }

  /** Nested lines are deeper than `parent`, and each text can stand where it is put. */
  predicate LaidOut(node: Node, parent: int)
    decreases node, 0
  {
    match node
    case Scalar(text) => text != "" && Trim(text) == text && !BlockMarker(text)
    case BlockScalar(_, lines) =>
      lines != [] ==> lines[0].indent > parent && forall i :: 0 <= i < |lines| ==> lines[i].indent >= lines[0].indent
    case Items(indent, items) =>
      indent > parent && items != [] && forall i :: 0 <= i < |items| ==> TrimStart(items[i]) == items[i]
    case Mapping(indent, entries) =>
      entries != [] ==> indent > parent && !IsDash(Head(entries[0])) && EntriesLaidOut(entries, indent)
  }

  predicate EntriesLaidOut(entries: seq<Entry>, indent: nat)
    decreases entries, 0
  {
    entries == [] ||
    (PlainKey(entries[0].key) && LaidOut(entries[0].node, indent) && EntriesLaidOut(entries[1..], indent))
  }

  /** The lines after a block inside `indent` do not continue it. */
  predicate Ends(post: seq<Line>, indent: nat) {
    post == [] || post[0].indent < indent
  }

  // ---------- read back ----------

  lemma {:induction false} ColonOf(key: string, after: string)
    requires ':' !in key
    ensures Colon(key + ":" + after) == Some(|key|)
    decreases |key|
  {
    var s := key + ":" + after;
    if key != "" {
      assert s[0] == key[0] && s[1..] == key[1..] + ":" + after;
      ColonOf(key[1..], after);
    }
  }

  lemma {:induction false} HeadReads(e: Entry)
    requires PlainKey(e.key) && Trim(Beside(e.node)) == Beside(e.node)
    ensures Colon(Head(e)) == Some(|e.key|) && Trim(Head(e)[..|e.key|]) == e.key
    ensures Trim(Head(e)[|e.key| + 1..]) == Beside(e.node)
  {
    var beside := Beside(e.node);
    var after := if beside == "" then "" else " " + beside;
    ColonOf(e.key, after);
    assert Head(e) == e.key + ":" + after;
    assert Head(e)[..|e.key|] == e.key && Head(e)[|e.key| + 1..] == after;
    if beside != "" { TrimmedAfterSpace(beside); }
  }

  lemma {:induction false} MarkerStands(m: Marker)
    ensures BlockMarker(MarkerText(m)) && Trim(MarkerText(m)) == MarkerText(m)
    ensures Separator(MarkerText(m)) == if m == Folded || m == FoldedStrip then " " else "\n"
  {
  }

  lemma {:induction false} DeepLines(lines: seq<Line>, post: seq<Line>, indent: nat)
    requires forall i :: 0 <= i < |lines| ==> lines[i].indent >= indent
    requires Ends(post, indent)
    ensures DeepCount(lines + post, indent) == |lines|
    decreases |lines|
  {
    if lines == [] {
      assert lines + post == post;
    } else {
      assert (lines + post)[0] == lines[0] && (lines + post)[1..] == lines[1..] + post;
      DeepLines(lines[1..], post, indent);
    }
  }

  lemma {:induction false} DashStands(indent: nat, item: string)
    ensures IsDash(ItemLine(indent, item).content)
  {
  }

  lemma {:induction false} ItemReads(indent: nat, item: string)
    requires TrimStart(item) == item
    ensures ItemText(ItemLine(indent, item).content) == item
  {
  }

  lemma {:induction false} ItemsValues(indent: nat, items: seq<string>)
    requires forall i :: 0 <= i < |items| ==> TrimStart(items[i]) == items[i]
    ensures |ItemLines(indent, items)| == |items|
    ensures ItemValues(ItemLines(indent, items)) == Scalars(items)
    decreases |items|
  {
    if items != [] {
      ItemReads(indent, items[0]);
      ItemsValues(indent, items[1..]);
    }
  }

  lemma {:induction false} ItemsRead(indent: nat, items: seq<string>, post: seq<Line>)
    requires Ends(post, indent)
    ensures ItemCount(ItemLines(indent, items) + post, indent) == |items|
    decreases |items|
  {
    var lines := ItemLines(indent, items) + post;
    if items == [] {
      assert lines == post;
    } else {
      var first, more := ItemLine(indent, items[0]), ItemLines(indent, items[1..]);
      assert ItemLines(indent, items) == [first] + more;
      assert lines[0] == first && lines[1..] == more + post;
      DashStands(indent, items[0]);
      ItemsRead(indent, items[1..], post);
    }
  }

  lemma {:induction false} Regroup(a: seq<Line>, b: seq<Line>, c: seq<Line>, d: seq<Line>)
    ensures a + b + c + d == a + b + (c + d)
  {
  }

  /** An entry's line and the lines nested under it are one field. */
  lemma {:induction false} FieldReads(indent: nat, e: Entry, post: seq<Line>)
    requires PlainKey(e.key) && LaidOut(e.node, indent) && Ends(post, indent + 1)
    ensures
      var lines := [Line(indent, Head(e))] + Layout(e.node) + post;
      FieldFrom(lines) == Done(Value(e.node), post) && Key(lines[0]) == e.key
    decreases e.node, 2
  {
    var lines := [Line(indent, Head(e))] + Layout(e.node) + post;
    var next := Layout(e.node) + post;
    assert lines[0].content == Head(e) && lines[1..] == next;
    if e.node.BlockScalar? { MarkerStands(e.node.marker); }
    HeadReads(e);
    assert FieldFrom(lines) == ValueFrom(next, indent, Beside(e.node));
    ValueReads(indent, e.node, post);
  }

  lemma {:induction false} ScalarReads(indent: nat, text: string, post: seq<Line>)
    requires LaidOut(Scalar(text), indent)
    ensures Layout(Scalar(text)) == []
    ensures ValueFrom(post, indent, text) == Done(ParseScalar(text), post)
  {
  }

  lemma {:induction false} TextReads(indent: nat, marker: Marker, lines: seq<Line>, post: seq<Line>)
    requires LaidOut(BlockScalar(marker, lines), indent) && Ends(post, indent + 1)
    ensures ValueFrom(lines + post, indent, MarkerText(marker)) == Done(Value(BlockScalar(marker, lines)), post)
  {
    MarkerStands(marker);
    if lines == [] {
      assert lines + post == post;
    } else {
      DeepLines(lines, post, lines[0].indent);
      assert (lines + post)[..|lines|] == lines && (lines + post)[|lines|..] == post;
    }
  }

  lemma {:induction false} EmptyReads(indent: nat, node: Node, post: seq<Line>)
    requires node.Mapping? && node.entries == [] && Ends(post, indent + 1)
    ensures Layout(node) == [] && ValueFrom(post, indent, "") == Done(Value(node), post)
  {
  }

  lemma {:induction false} ValueReads(indent: nat, node: Node, post: seq<Line>)
    requires LaidOut(node, indent) && Ends(post, indent + 1)
    ensures ValueFrom(Layout(node) + post, indent, Beside(node)) == Done(Value(node), post)
    decreases node, 1
  {
    match node
    case Scalar(text) =>
      ScalarReads(indent, text, post);
      assert Layout(node) + post == post;
    case BlockScalar(marker, lines) =>
      TextReads(indent, marker, lines, post);
    case Items(childIndent, items) =>
      ItemsValues(childIndent, items);
      BlockReads(node, indent, post);
    case Mapping(childIndent, entries) =>
      if entries == [] {
        EmptyReads(indent, node, post);
        assert Layout(node) + post == post;
      } else {
        BlockReads(node, indent, post);
      }
  }

  /** A nested block is read whole, and the cursor stops right after it. */
  lemma {:induction false} BlockReads(node: Node, parent: int, post: seq<Line>)
    requires node.Items? || (node.Mapping? && node.entries != [])
    requires LaidOut(node, parent) && Ends(post, node.indent)
    ensures Layout(node) != [] && Layout(node)[0].indent == node.indent
    ensures BlockFrom(Layout(node) + post, node.indent) == Done(Value(node), post)
    decreases node, 0
  {
    var rest := Layout(node) + post;
    match node
    case Items(indent, items) =>
      ItemsRead(indent, items, post);
      ItemsValues(indent, items);
      assert rest[0] == ItemLines(indent, items)[0];
      assert rest[..|items|] == ItemLines(indent, items) && rest[|items|..] == post;
    case Mapping(indent, entries) =>
      EntriesRead(indent, entries, map[], post);
      assert rest[0] == Line(indent, Head(entries[0]));
  }

  lemma {:induction false} EntriesRead(indent: nat, entries: seq<Entry>, obj: map<string, Yaml>, post: seq<Line>)
    requires EntriesLaidOut(entries, indent) && Ends(post, indent)
    ensures FieldsFrom(EntryLines(indent, entries) + post, indent, obj) == Done(Obj(Fields(entries, obj)), post)
    decreases entries, 0
  {
    var rest := EntryLines(indent, entries) + post;
    if entries == [] {
      assert rest == post;
    } else {
      var e, more := entries[0], EntryLines(indent, entries[1..]) + post;
      Regroup([Line(indent, Head(e))], Layout(e.node), EntryLines(indent, entries[1..]), post);
      assert more != [] ==> more[0] == if |entries| > 1 then Line(indent, Head(entries[1])) else post[0];
      FieldReads(indent, e, more);
      EntriesRead(indent, entries[1..], obj[e.key := Value(e.node)], post);
    }
  }

  /**
   The whole-document round trip. Lines that follow the first block and are
   shallower than it are dropped without a word, whatever they say.
   */
  lemma {:induction false} DocumentReads(node: Node, post: seq<Line>)
    requires node.Items? || (node.Mapping? && node.entries != [])
    requires LaidOut(node, -1) && Ends(post, node.indent)
    ensures Document(Layout(node) + post) == Success(Value(node))
  {
    BlockReads(node, -1, post);
    assert (Layout(node) + post)[0] == Layout(node)[0];
  }
}
