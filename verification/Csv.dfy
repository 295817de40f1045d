/**
 The CSV export of AI candidates (api/src/analytics/ai-candidates.ts) and a
 reader that follows section 2 of RFC 4180.
 */
module Csv {
  import opened Text
  import opened Wrappers

  const BOM: string := ['\U{FEFF}']
  const CRLF := "\r\n"

  datatype Ref = Ref(id: string, name: string)

  /** `leverageText` is the decimal text of the score, as the number prints. */
  datatype AiCandidate = AiCandidate(
    activityId: string, activityName: string, journey: Option<Ref>,
    systems: seq<Ref>, roles: seq<Ref>,
    repetition: string, dataRichness: string, leverageText: string)

  const HEADER: seq<string> := [
    "activity_id", "activity_name", "journey_name", "systems",
    "roles", "repetition", "data_richness", "leverage_score"]

  // ---------- the writer ----------

  predicate Special(c: char) {
    c == ',' || c == '"' || c == '\r' || c == '\n'
  }

  predicate NeedsQuotes(value: string) {
    exists i :: 0 <= i < |value| && Special(value[i])
  }

  function DoubleQuotes(value: string): string {
    if value == "" then ""
    else (if value[0] == '"' then "\"\"" else [value[0]]) + DoubleQuotes(value[1..])
  }

  function CsvField(value: string): string {
    if NeedsQuotes(value) then "\"" + DoubleQuotes(value) + "\"" else value
  }

  function CsvFields(values: seq<string>): seq<string> {
    if values == [] then [] else [CsvField(values[0])] + CsvFields(values[1..])
  }

  function Names(refs: seq<Ref>): seq<string> {
    if refs == [] then [] else [refs[0].name] + Names(refs[1..])
  }

  /** The eight values of a candidate's record. */
  function Values(c: AiCandidate): seq<string> {
    [c.activityId, c.activityName, if c.journey.Some? then c.journey.value.name else "",
     Join(Names(c.systems), "; "), Join(Names(c.roles), "; "), c.repetition, c.dataRichness, c.leverageText]
  }

  function Line(values: seq<string>): string {
    Join(CsvFields(values), ",")
  }

  function Lines(records: seq<seq<string>>): seq<string> {
    if records == [] then [] else [Line(records[0])] + Lines(records[1..])
  }

  /** The records of the exported document: the header and one per candidate. */
  function RecordsOf(candidates: seq<AiCandidate>): seq<seq<string>> {
    [HEADER] + CandidateRecords(candidates)
  }

  function CandidateRecords(candidates: seq<AiCandidate>): seq<seq<string>> {
    if candidates == [] then [] else [Values(candidates[0])] + CandidateRecords(candidates[1..])
  }

  /** The document after the byte order mark. */
  function Document(records: seq<seq<string>>): string {
    Join(Lines(records), CRLF) + CRLF
  }

  method ToCsv(candidates: seq<AiCandidate>) returns (text: string)
    ensures text == BOM + Document(RecordsOf(candidates))
    ensures Read(Document(RecordsOf(candidates))) == Some(RecordsOf(candidates))
  {
    var lines := [Line(HEADER)];
    OneLine(HEADER);
    assert candidates[..0] == [] && RecordsOf([]) == [HEADER];
    for i := 0 to |candidates|
      invariant lines == Lines(RecordsOf(candidates[..i]))
    {
      lines := lines + [Line(Values(candidates[i]))];
      PrefixGrows(candidates, i);
      RecordsSnoc(candidates[..i], candidates[i]);
    }
    assert candidates[..|candidates|] == candidates;
    text := BOM + (Join(lines, CRLF) + CRLF);
    ExportReadsBack(candidates);
  }

  lemma {:induction false} OneLine(values: seq<string>)
    ensures Lines([values]) == [Line(values)]
  {
  }

  lemma {:induction false} ExportReadsBack(candidates: seq<AiCandidate>)
    ensures Read(Document(RecordsOf(candidates))) == Some(RecordsOf(candidates))
  {
    RecordsNonEmpty(candidates);
    RoundTrip(RecordsOf(candidates));
  }

  lemma {:induction false} PrefixGrows(candidates: seq<AiCandidate>, i: nat)
    requires i < |candidates|
    ensures candidates[..i + 1] == candidates[..i] + [candidates[i]]
  {
  }

  lemma {:induction false} RecordsSnoc(candidates: seq<AiCandidate>, c: AiCandidate)
    ensures Lines(RecordsOf(candidates + [c])) == Lines(RecordsOf(candidates)) + [Line(Values(c))]
  {
    CandidateRecordsSnoc(candidates, c);
    assert RecordsOf(candidates + [c]) == RecordsOf(candidates) + [Values(c)];
    LinesSnoc(RecordsOf(candidates), Values(c));
  }

  lemma {:induction false} CandidateRecordsSnoc(candidates: seq<AiCandidate>, c: AiCandidate)
    ensures CandidateRecords(candidates + [c]) == CandidateRecords(candidates) + [Values(c)]
  {
    if candidates != [] {
      CandidateRecordsSnoc(candidates[1..], c);
      assert (candidates + [c])[1..] == candidates[1..] + [c];
    }
  }

  lemma {:induction false} LinesSnoc(records: seq<seq<string>>, r: seq<string>)
    ensures Lines(records + [r]) == Lines(records) + [Line(r)]
  {
    if records != [] {
      LinesSnoc(records[1..], r);
      assert (records + [r])[1..] == records[1..] + [r];
    }
  }

  // ---------- a reader after section 2 of RFC 4180 ----------

  /** The rest of a quoted field (rules 5 to 7): its value and the text after the closing quote. */
  function ReadQuoted(s: string): (r: Option<(string, string)>)
    ensures r.Some? ==> |r.value.1| < |s|
  {
    if s == "" then None
    else if s[0] != '"' then Prepend(s[0], ReadQuoted(s[1..]))
    else if |s| >= 2 && s[1] == '"' then Prepend('"', ReadQuoted(s[2..]))
    else Some(("", s[1..]))
  }

  function Prepend(c: char, r: Option<(string, string)>): Option<(string, string)> {
    if r == None then None else Some(([c] + r.value.0, r.value.1))
  }

  /** An unquoted field runs to a comma or a line break and must not contain a quote (rule 5). */
  function ReadPlain(s: string): (r: Option<(string, string)>)
    ensures r.Some? ==> |r.value.1| <= |s|
  {
    if s == "" || s[0] == ',' || s[0] == '\r' || s[0] == '\n' then Some(("", s))
    else if s[0] == '"' then None
    else Prepend(s[0], ReadPlain(s[1..]))
  }

  function ReadField(s: string): (r: Option<(string, string)>)
    ensures r.Some? ==> |r.value.1| <= |s|
  {
    if s != "" && s[0] == '"' then ReadQuoted(s[1..]) else ReadPlain(s)
  }

  /** Fields separated by commas (rule 4). */
  function ReadRecord(s: string): (r: Option<(seq<string>, string)>)
    ensures r.Some? ==> |r.value.1| <= |s|
    decreases |s|
  {
    var f := ReadField(s);
    if f == None then None
    else if f.value.1 != "" && f.value.1[0] == ',' then
      var more := ReadRecord(f.value.1[1..]);
      if more == None then None else Some(([f.value.0] + more.value.0, more.value.1))
    else Some(([f.value.0], f.value.1))
  }

  /** Records separated by CRLF; the last may or may not end with one (rules 1 and 2). */
  function Read(s: string): Option<seq<seq<string>>>
    decreases |s|
  {
    var r := ReadRecord(s);
    if r == None then None
    else if r.value.1 == "" || r.value.1 == CRLF then Some([r.value.0])
    else if CRLF <= r.value.1 then
      var more := Read(r.value.1[2..]);
      if more == None then None else Some([r.value.0] + more.value)
    else None
  }

  // ---------- the round trip ----------

  lemma {:induction false} ReadsQuoted(v: string, tail: string)
    requires tail == "" || tail[0] != '"'
    ensures ReadQuoted(DoubleQuotes(v) + "\"" + tail) == Some((v, tail))
  {
    var s := DoubleQuotes(v) + "\"" + tail;
    if v == "" {
      assert s == "\"" + tail;
    } else {
      ReadsQuoted(v[1..], tail);
      var rest := DoubleQuotes(v[1..]) + "\"" + tail;
      if v[0] == '"' {
        assert s == "\"\"" + rest && s[2..] == rest;
      } else {
        assert s == [v[0]] + rest && s[1..] == rest;
      }
      assert [v[0]] + v[1..] == v;
    }
  }

  lemma {:induction false} ReadsPlain(v: string, tail: string)
    requires !NeedsQuotes(v)
    requires tail == "" || tail[0] == ',' || tail[0] == '\r'
    ensures ReadPlain(v + tail) == Some((v, tail))
  {
    if v == "" {
      assert v + tail == tail;
    } else {
      assert !Special(v[0]);
      assert !NeedsQuotes(v[1..]) by {
        assert forall i :: 0 <= i < |v| - 1 ==> v[1..][i] == v[i + 1];
      }
      ReadsPlain(v[1..], tail);
      assert (v + tail)[1..] == v[1..] + tail;
      assert [v[0]] + v[1..] == v;
    }
  }

  lemma {:induction false} ReadsField(v: string, tail: string)
    requires tail == "" || tail[0] == ',' || tail[0] == '\r'
    ensures ReadField(CsvField(v) + tail) == Some((v, tail))
  {
    if NeedsQuotes(v) {
      ReadsQuoted(v, tail);
      var body := DoubleQuotes(v) + "\"" + tail;
      assert CsvField(v) + tail == ['"'] + body;
      assert (['"'] + body)[1..] == body;
    } else {
      ReadsPlain(v, tail);
      StartsPlain(v, tail);
    }
  }

  lemma {:induction false} StartsPlain(v: string, tail: string)
    requires !NeedsQuotes(v)
    requires tail == "" || tail[0] == ',' || tail[0] == '\r'
    ensures v + tail != "" ==> (v + tail)[0] != '"'
  {
  }

  lemma {:induction false} ReadsRecord(values: seq<string>, tail: string)
    requires values != [] && (tail == "" || tail[0] == '\r')
    ensures ReadRecord(Line(values) + tail) == Some((values, tail))
  {
    if |values| == 1 {
      assert values == [values[0]] && CsvFields(values)[1..] == [];
      ReadsField(values[0], tail);
    } else {
      ReadsRecord(values[1..], tail);
      LineStarts(values, tail);
      ReadsFirstField(values[0], Line(values[1..]) + tail, values[1..], tail);
      assert [values[0]] + values[1..] == values;
    }
  }

  lemma {:induction false} LineStarts(values: seq<string>, tail: string)
    requires |values| > 1
    ensures Line(values) + tail == CsvField(values[0]) + ("," + (Line(values[1..]) + tail))
  {
  }

  lemma {:induction false} ReadsFirstField(value: string, inner: string, rest: seq<string>, tail: string)
    requires ReadRecord(inner) == Some((rest, tail))
    ensures ReadRecord(CsvField(value) + ("," + inner)) == Some(([value] + rest, tail))
  {
    ReadsField(value, "," + inner);
    assert ("," + inner)[1..] == inner;
  }

  lemma {:induction false} CsvFieldsLength(values: seq<string>)
    ensures |CsvFields(values)| == |values|
  {
    if values != [] {
      CsvFieldsLength(values[1..]);
    }
  }

  lemma {:induction false} LinesLength(records: seq<seq<string>>)
    ensures |Lines(records)| == |records|
  {
    if records != [] {
      LinesLength(records[1..]);
    }
  }

  /** Reading what was written gives back exactly the records, whatever characters they hold. */
  lemma {:induction false} RoundTrip(records: seq<seq<string>>)
    requires records != [] && forall i :: 0 <= i < |records| ==> records[i] != []
    ensures Read(Document(records)) == Some(records)
  {
    if |records| == 1 {
      OneLine(records[0]);
      assert records == [records[0]];
      ReadsRecord(records[0], CRLF);
    } else {
      RoundTrip(records[1..]);
      DocumentStarts(records);
      ReadsFirst(records[0], Document(records[1..]), records[1..]);
      assert [records[0]] + records[1..] == records;
    }
  }

  lemma {:induction false} DocumentStarts(records: seq<seq<string>>)
    requires |records| > 1
    ensures Document(records) == Line(records[0]) + (CRLF + Document(records[1..]))
    ensures Document(records[1..]) != ""
  {
    var first, rest := Line(records[0]), Lines(records[1..]);
    LinesLength(records);
    assert Lines(records)[1..] == rest;
    assert (first + CRLF + Join(rest, CRLF)) + CRLF == first + (CRLF + (Join(rest, CRLF) + CRLF));
  }

  lemma {:induction false} ReadsFirst(values: seq<string>, more: string, rest: seq<seq<string>>)
    requires values != [] && more != "" && Read(more) == Some(rest)
    ensures Read(Line(values) + (CRLF + more)) == Some([values] + rest)
  {
    var after := CRLF + more;
    ReadsRecord(values, after);
    assert after[2..] == more;
  }

  /** Two exports with the same text hold the same values: quoting loses nothing. */
  lemma {:induction false} ExportIsInjective(a: seq<AiCandidate>, b: seq<AiCandidate>)
    requires Document(RecordsOf(a)) == Document(RecordsOf(b))
    ensures CandidateRecords(a) == CandidateRecords(b)
  {
    ExportReadsBack(a);
    ExportReadsBack(b);
    assert RecordsOf(a)[1..] == CandidateRecords(a);
    assert RecordsOf(b)[1..] == CandidateRecords(b);
  }

  lemma {:induction false} CandidateRecordsSize(candidates: seq<AiCandidate>)
    ensures |CandidateRecords(candidates)| == |candidates|
    ensures forall i :: 0 <= i < |candidates| ==> |CandidateRecords(candidates)[i]| == 8
  {
    if candidates != [] {
      CandidateRecordsSize(candidates[1..]);
    }
  }

  /** One record of eight values for the header and for every candidate. */
  lemma {:induction false} RecordsNonEmpty(candidates: seq<AiCandidate>)
    ensures |RecordsOf(candidates)| == 1 + |candidates|
    ensures forall i :: 0 <= i < |RecordsOf(candidates)| ==> |RecordsOf(candidates)[i]| == 8
  {
    CandidateRecordsSize(candidates);
  }

  // ---------- what stands where ----------

  ghost function NamesInOrder(refs: seq<Ref>): seq<string> {
    seq(|refs|, i requires 0 <= i < |refs| => refs[i].name)
  }

  lemma {:induction false} NamesAre(refs: seq<Ref>)
    ensures Names(refs) == NamesInOrder(refs)
  {
    if refs != [] {
      NamesAre(refs[1..]);
    }
  }

  lemma {:induction false} RecordOf(candidates: seq<AiCandidate>, k: nat)
    requires k < |candidates|
    ensures |RecordsOf(candidates)| == 1 + |candidates| && RecordsOf(candidates)[k + 1] == Values(candidates[k])
    ensures RecordsOf(candidates)[0] == HEADER
  {
    CandidateRecordsSize(candidates);
    CandidateRecordAt(candidates, k);
  }

  lemma {:induction false} CandidateRecordAt(candidates: seq<AiCandidate>, k: nat)
    requires k < |candidates| == |CandidateRecords(candidates)|
    ensures CandidateRecords(candidates)[k] == Values(candidates[k])
  {
    if k > 0 {
      CandidateRecordsSize(candidates[1..]);
      CandidateRecordAt(candidates[1..], k - 1);
    }
  }

  /** Each value of an exported candidate stands in its record under the heading that names it. */
  lemma {:induction false} ColumnsAre(candidates: seq<AiCandidate>, k: nat)
    requires k < |candidates|
    ensures var records, c := RecordsOf(candidates), candidates[k];
            && |records| == 1 + |candidates| && |records[0]| == |records[k + 1]| == 8
            && records[0][0] == "activity_id" && records[k + 1][0] == c.activityId
            && records[0][1] == "activity_name" && records[k + 1][1] == c.activityName
            && records[0][2] == "journey_name"
            && records[k + 1][2] == (match c.journey case None => "" case Some(j) => j.name)
            && records[0][3] == "systems"
            && records[k + 1][3] == Join(NamesInOrder(c.systems), "; ")
            && records[0][4] == "roles"
            && records[k + 1][4] == Join(NamesInOrder(c.roles), "; ")
            && records[0][5] == "repetition" && records[k + 1][5] == c.repetition
            && records[0][6] == "data_richness" && records[k + 1][6] == c.dataRichness
            && records[0][7] == "leverage_score" && records[k + 1][7] == c.leverageText
  {
    RecordOf(candidates, k);
    NamesAre(candidates[k].systems);
    NamesAre(candidates[k].roles);
  }

  /** A field is quoted exactly when it holds a comma, a quote or part of a line end. */
  lemma {:induction false} QuotedIff(value: string)
    ensures CsvField(value) == value <==> ',' !in value && '"' !in value && '\r' !in value && '\n' !in value
    ensures CsvField(value) != value ==>
              |CsvField(value)| >= 2 && CsvField(value)[0] == '"' == CsvField(value)[|CsvField(value)| - 1]
  {
    DoublingGrows(value);
    if NeedsQuotes(value) {
      var i :| 0 <= i < |value| && Special(value[i]);
      assert value[i] in value;
      assert |CsvField(value)| >= |value| + 2;
    }
  }

  lemma {:induction false} DoublingGrows(value: string)
    ensures |DoubleQuotes(value)| >= |value|
  {
    if value != "" {
      DoublingGrows(value[1..]);
    }
  }

  /** The text begins with the byte order mark, and every record, the last one too, ends with a line end. */
  lemma {:induction false} DocumentEnds(candidates: seq<AiCandidate>)
    ensures var text := BOM + Document(RecordsOf(candidates));
            && |text| >= 3 && text[0] as int == 0xFEFF
            && text[|text| - 2..] == ['\r', '\n']
  {
    EndsWith(BOM, Join(Lines(RecordsOf(candidates)), CRLF), CRLF);
  }

  lemma {:induction false} EndsWith(a: string, b: string, c: string)
    ensures (a + (b + c))[|a| + |b|..] == c
  {
  }
}
