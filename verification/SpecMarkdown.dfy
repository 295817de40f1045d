/** The Markdown escaper of api/src/derive/spec-markdown.ts. */
module SpecMarkdown {

  // ---------- the escaper ----------

  /** The library's replacement of every occurrence of one character. */
  function ReplaceAll(s: string, c: char, with: string): string {
    if s == "" then "" else (if s[0] == c then with else [s[0]]) + ReplaceAll(s[1..], c, with)
  }

  /** Nine replacements, one after the other. */
  function EscapeMarkdown(s: string): string {
    var s1 := ReplaceAll(s, '\\', "\\\\");
    var s2 := ReplaceAll(s1, '|', "\\|");
    var s3 := ReplaceAll(s2, '`', "\\`");
    var s4 := ReplaceAll(s3, '#', "\\#");
    var s5 := ReplaceAll(s4, '*', "\\*");
    var s6 := ReplaceAll(s5, '_', "\\_");
    var s7 := ReplaceAll(s6, '[', "\\[");
    var s8 := ReplaceAll(s7, ']', "\\]");
    ReplaceAll(s8, '\n', " ")
  }

  predicate Significant(c: char) {
    c == '\\' || c == '|' || c == '`' || c == '#' || c == '*' || c == '_' || c == '[' || c == ']'
  }

  /** What becomes of one character. */
  function EscapeChar(c: char): string {
    if Significant(c) then ['\\', c] else if c == '\n' then " " else [c]
  }

  function EscapeEach(s: string): string {
    if s == "" then "" else EscapeChar(s[0]) + EscapeEach(s[1..])
  }

  lemma {:induction false} Regrouped(a: string, b: string, c: string)
    ensures a + (b + c) == (a + b) + c
  {
  }

  lemma {:induction false} ReplaceConcat(a: string, b: string, c: char, with: string)
    ensures ReplaceAll(a + b, c, with) == ReplaceAll(a, c, with) + ReplaceAll(b, c, with)
  {
    if a == "" {
      assert a + b == b;
    } else {
      ReplaceConcat(a[1..], b, c, with);
      assert (a + b)[0] == a[0] && (a + b)[1..] == a[1..] + b;
      Regrouped(if a[0] == c then with else [a[0]], ReplaceAll(a[1..], c, with), ReplaceAll(b, c, with));
    }
  }

  lemma {:induction false} ReplaceOne(x: char, c: char, with: string)
    ensures ReplaceAll([x], c, with) == if x == c then with else [x]
  {
  }

  /** One pass over a character that is still plain, or already escaped. */
  lemma {:induction false} Stage(x: char, c: char, with: string)
    requires c != '\\'
    ensures ReplaceAll([x], c, with) == if x == c then with else [x]
    ensures c != x ==> ReplaceAll(['\\', x], c, with) == ['\\', x]
  {
  }

  lemma {:induction false} EscapeOne(x: char)
    ensures EscapeMarkdown([x]) == EscapeChar(x)
  {
    ReplaceOne(x, '\\', "\\\\");
    Stage(x, '|', "\\|");
    Stage(x, '`', "\\`");
    Stage(x, '#', "\\#");
    Stage(x, '*', "\\*");
    Stage(x, '_', "\\_");
    Stage(x, '[', "\\[");
    Stage(x, ']', "\\]");
    Stage(x, '\n', " ");
  }

  lemma {:induction false} EscapeConcat(a: string, b: string)
    ensures EscapeMarkdown(a + b) == EscapeMarkdown(a) + EscapeMarkdown(b)
  {
    ReplaceConcat(a, b, '\\', "\\\\");
    var a1, b1 := ReplaceAll(a, '\\', "\\\\"), ReplaceAll(b, '\\', "\\\\");
    ReplaceConcat(a1, b1, '|', "\\|");
    var a2, b2 := ReplaceAll(a1, '|', "\\|"), ReplaceAll(b1, '|', "\\|");
    ReplaceConcat(a2, b2, '`', "\\`");
    var a3, b3 := ReplaceAll(a2, '`', "\\`"), ReplaceAll(b2, '`', "\\`");
    ReplaceConcat(a3, b3, '#', "\\#");
    var a4, b4 := ReplaceAll(a3, '#', "\\#"), ReplaceAll(b3, '#', "\\#");
    ReplaceConcat(a4, b4, '*', "\\*");
    var a5, b5 := ReplaceAll(a4, '*', "\\*"), ReplaceAll(b4, '*', "\\*");
    ReplaceConcat(a5, b5, '_', "\\_");
    var a6, b6 := ReplaceAll(a5, '_', "\\_"), ReplaceAll(b5, '_', "\\_");
    ReplaceConcat(a6, b6, '[', "\\[");
    var a7, b7 := ReplaceAll(a6, '[', "\\["), ReplaceAll(b6, '[', "\\[");
    ReplaceConcat(a7, b7, ']', "\\]");
    var a8, b8 := ReplaceAll(a7, ']', "\\]"), ReplaceAll(b7, ']', "\\]");
    ReplaceConcat(a8, b8, '\n', " ");
  }

  /** The nine passes equal one pass that escapes each character on its own. */
  lemma {:induction false} EscapeIsPerCharacter(s: string)
    ensures EscapeMarkdown(s) == EscapeEach(s)
  {
    if s != "" {
      EscapeIsPerCharacter(s[1..]);
      assert s == [s[0]] + s[1..];
      EscapeConcat([s[0]], s[1..]);
      EscapeOne(s[0]);
    }
  }

  // ---------- undoing it ----------

  /** Markdown's reading of backslash escapes, in one pass. */
  function Unescape(s: string): string {
    if s == "" then ""
    else if s[0] == '\\' && |s| >= 2 then [s[1]] + Unescape(s[2..])
    else [s[0]] + Unescape(s[1..])
  }

  lemma {:induction false} UnescapeEach(s: string)
    ensures Unescape(EscapeEach(s)) == ReplaceAll(s, '\n', " ")
  {
    if s != "" {
      UnescapeEach(s[1..]);
      var rest := EscapeEach(s[1..]);
      if Significant(s[0]) {
        assert (['\\', s[0]] + rest)[2..] == rest;
      } else {
        assert (EscapeChar(s[0]) + rest)[1..] == rest;
      }
    }
  }

  lemma {:induction false} ReplaceNewlines(s: string)
    ensures ReplaceAll(s, '\n', " ") == s <==> '\n' !in s
  {
    if s != "" {
      ReplaceNewlines(s[1..]);
      assert s == [s[0]] + s[1..];
      assert ReplaceAll(s, '\n', " ")[1..] == ReplaceAll(s[1..], '\n', " ");
    }
  }

  /** Escaping can be undone exactly when the text has no newline; a newline turns into a space. */
  lemma {:induction false} UnescapeUndoes(s: string)
    ensures Unescape(EscapeMarkdown(s)) == ReplaceAll(s, '\n', " ")
    ensures Unescape(EscapeMarkdown(s)) == s <==> '\n' !in s
  {
    EscapeIsPerCharacter(s);
    UnescapeEach(s);
    ReplaceNewlines(s);
  }

  // ---------- pipes and cells ----------

  /** Whether the character after `s` is escaped, when `escaped` says so of its first. */
  function EscapedAfter(s: string, escaped: bool): bool {
    if s == "" then escaped else EscapedAfter(s[1..], !escaped && s[0] == '\\')
  }

  /** The pipes that separate cells: those no backslash escapes. */
  function Separators(s: string, escaped: bool): nat {
    if s == "" then 0
    else (if !escaped && s[0] == '|' then 1 else 0) + Separators(s[1..], !escaped && s[0] == '\\')
  }

  function BackslashesBefore(s: string, i: nat): nat
    requires i <= |s|
  {
    if i > 0 && s[i - 1] == '\\' then 1 + BackslashesBefore(s, i - 1) else 0
  }

  lemma {:induction false} EscapedAfterSnoc(s: string, c: char, escaped: bool)
    ensures EscapedAfter(s + [c], escaped) == (!EscapedAfter(s, escaped) && c == '\\')
  {
    if s == "" {
      assert s + [c] == [c];
      assert [c][1..] == "";
    } else {
      EscapedAfterSnoc(s[1..], c, !escaped && s[0] == '\\');
      assert (s + [c])[1..] == s[1..] + [c];
    }
  }

  /** A character is escaped exactly when an odd run of backslashes stands before it. */
  lemma {:induction false} EscapedIffOddRun(s: string, i: nat)
    requires i <= |s|
    ensures EscapedAfter(s[..i], false) <==> BackslashesBefore(s, i) % 2 == 1
  {
    if i > 0 {
      EscapedIffOddRun(s, i - 1);
      assert s[..i] == s[..i - 1] + [s[i - 1]];
      EscapedAfterSnoc(s[..i - 1], s[i - 1], false);
    }
  }

  lemma {:induction false} SeparatorsConcat(a: string, b: string, escaped: bool)
    ensures Separators(a + b, escaped) == Separators(a, escaped) + Separators(b, EscapedAfter(a, escaped))
    ensures EscapedAfter(a + b, escaped) == EscapedAfter(b, EscapedAfter(a, escaped))
  {
    if a == "" {
      assert a + b == b;
    } else {
      SeparatorsConcat(a[1..], b, !escaped && a[0] == '\\');
      assert (a + b)[1..] == a[1..] + b;
    }
  }

  /** A cell neither separates nor leaves an escape open at its end. */
  ghost predicate IsCell(s: string) {
    Separators(s, false) == 0 && !EscapedAfter(s, false)
  }

  lemma {:induction false} EscapedIsCell(s: string)
    ensures IsCell(EscapeEach(s))
  {
    if s != "" {
      EscapedIsCell(s[1..]);
      SeparatorsConcat(EscapeChar(s[0]), EscapeEach(s[1..]), false);
      if Significant(s[0]) {
        assert ['\\', s[0]][1..] == [s[0]];
        assert [s[0]][1..] == "";
      } else {
        assert EscapeChar(s[0])[1..] == "";
      }
    }
  }

  /** The signs of Markdown other than the backslash itself. */
  predicate Sign(c: char) {
    c == '|' || c == '`' || c == '#' || c == '*' || c == '_' || c == '[' || c == ']'
  }

  lemma {:induction false} SignsEscaped(s: string, i: nat)
    requires i < |EscapeEach(s)| && Sign(EscapeEach(s)[i])
    ensures EscapedAfter(EscapeEach(s)[..i], false)
  {
    var head, rest := EscapeChar(s[0]), EscapeEach(s[1..]);
    var e := head + rest;
    assert EscapeEach(s) == e;
    HeadLeavesNothingOpen(s[0]);
    if i < |head| {
      assert Significant(s[0]) && head == ['\\', s[0]];
      assert EscapeEach(s)[..i] == ['\\'];
      assert EscapedAfter("", true);
      assert ['\\'][1..] == "";
      assert EscapedAfter(['\\'], false);
    } else {
      SignsEscaped(s[1..], i - |head|);
      assert e[..i] == head + rest[..i - |head|];
      SeparatorsConcat(head, rest[..i - |head|], false);
    }
  }

  lemma {:induction false} HeadLeavesNothingOpen(c: char)
    ensures !EscapedAfter(EscapeChar(c), false)
  {
    if Significant(c) {
      assert [c][1..] == "";
      assert !EscapedAfter([c], true);
      assert ['\\', c][1..] == [c];
    } else {
      var one := EscapeChar(c);
      assert |one| == 1 && one[0] != '\\' && one[1..] == "";
      assert !EscapedAfter("", false);
    }
  }

  /** Every sign of Markdown, the pipe among them, stands in escaped text after an odd run of backslashes. */
  lemma {:induction false} EverySignIsEscaped(s: string, i: nat)
    requires i < |EscapeMarkdown(s)| && Sign(EscapeMarkdown(s)[i])
    ensures BackslashesBefore(EscapeMarkdown(s), i) % 2 == 1
  {
    EscapeIsPerCharacter(s);
    SignsEscaped(s, i);
    EscapedIffOddRun(EscapeMarkdown(s), i);
  }

  /** Escaping leaves alone exactly the texts without a sign of Markdown, a backslash or a newline. */
  lemma {:induction false} EscapesNothingElse(s: string)
    ensures EscapeMarkdown(s) == s <==> forall i :: 0 <= i < |s| ==> !Sign(s[i]) && s[i] != '\\' && s[i] != '\n'
  {
    EscapeIsPerCharacter(s);
    EscapedGrows(s);
  }

  lemma {:induction false} EscapedGrows(s: string)
    ensures |EscapeEach(s)| >= |s|
    ensures EscapeEach(s) == s <==> forall i :: 0 <= i < |s| ==> !Sign(s[i]) && s[i] != '\\' && s[i] != '\n'
  {
    if s != "" {
      var head, rest := EscapeChar(s[0]), EscapeEach(s[1..]);
      EscapedGrows(s[1..]);
      assert forall i :: 0 < i < |s| ==> s[i] == s[1..][i - 1];
      if head == [s[0]] {
        assert (head + rest)[1..] == rest;
        assert [s[0]] + s[1..] == s;
      } else if |head| == 1 {
        assert (head + rest)[0] != s[0];
      } else {
        assert |head + rest| > |s|;
      }
    }
  }

  lemma {:induction false} EscapeIsCell(s: string)
    ensures IsCell(EscapeMarkdown(s))
  {
    EscapeIsPerCharacter(s);
    EscapedIsCell(s);
  }

  // ---------- line breaks ----------

  lemma {:induction false} LineBreaksEach(s: string)
    ensures '\n' !in EscapeEach(s)
    ensures '\r' in EscapeEach(s) <==> '\r' in s
  {
    if s != "" {
      LineBreaksEach(s[1..]);
      assert s == [s[0]] + s[1..];
    }
  }

  /**
   No newline survives escaping, so `lines.join` keeps a row on one line; a
   carriage return, which Markdown also reads as a line end, survives exactly
   when the text holds one.
   */
  lemma {:induction false} LineBreaks(s: string)
    ensures '\n' !in EscapeMarkdown(s)
    ensures '\r' in EscapeMarkdown(s) <==> '\r' in s
  {
    EscapeIsPerCharacter(s);
    LineBreaksEach(s);
  }
}
