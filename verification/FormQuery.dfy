/**
 A query codec in the form of the platform's URLSearchParams: pairs joined by `&`,
 percent escapes over UTF-8, `+` for a space. It shows that what HashRoute assumes
 of one can be met.
 */
module FormQuery {
  import opened Text
  import opened HashRoute

  // ---------- one text ----------

  /** The characters a form leaves alone. */
  predicate Kept(c: char) {
    'A' <= c <= 'Z' || 'a' <= c <= 'z' || '0' <= c <= '9' || c in "*-._"
  }

  function FormChar(c: char): string {
    if c == ' ' then "+" else if Kept(c) then [c] else Percent(Octets(c))
  }

  function FormText(s: string): string {
    if s == "" then "" else FormChar(s[0]) + FormText(s[1..])
  }

  function HexValue(c: char): nat {
    if '0' <= c <= '9' then (c - '0') as nat
    else if 'A' <= c <= 'F' then (c - 'A') as nat + 10
    else if 'a' <= c <= 'f' then (c - 'a') as nat + 10
    else 0
  }

  /** The octet of an escape. */
  function Octet(s: string): nat
    requires |s| >= 3
  {
    16 * HexValue(s[1]) + HexValue(s[2])
  }

  function EscapedOctets(s: string, n: nat): (os: seq<nat>)
    requires 3 * n <= |s|
    ensures |os| == n
  {
    if n == 0 then [] else [Octet(s)] + EscapedOctets(s[3..], n - 1)
  }

  /** How many octets a character has, by the first of them. */
  function OctetCount(first: nat): (n: nat)
    ensures 1 <= n <= 4
  {
    if first < 0xC0 then 1 else if first < 0xE0 then 2 else if first < 0xF0 then 3 else 4
  }

  /** The character of a run of octets. */
  function CodePoint(os: seq<int>): int
    requires 1 <= |os| <= 4
  {
    if |os| == 1 then os[0]
    else if |os| == 2 then (os[0] - 0xC0) * 64 + (os[1] - 0x80)
    else if |os| == 3 then ((os[0] - 0xE0) * 64 + (os[1] - 0x80)) * 64 + (os[2] - 0x80)
    else (((os[0] - 0xF0) * 64 + (os[1] - 0x80)) * 64 + (os[2] - 0x80)) * 64 + (os[3] - 0x80)
  }

  predicate Scalar(n: int) {
    0 <= n < 0xD800 || 0xE000 <= n < 0x11_0000
  }

  /** Reads escapes and plus signs; a broken escape stands for itself. */
  function ReadText(s: string): string {
    if s == "" then ""
    else if s[0] == '+' then [' '] + ReadText(s[1..])
    else if s[0] == '%' && |s| >= 3 then
      var n := OctetCount(Octet(s));
      if 3 * n <= |s| && Scalar(CodePoint(EscapedOctets(s, n))) then
        [CodePoint(EscapedOctets(s, n)) as char] + ReadText(s[3 * n..])
      else ['%'] + ReadText(s[1..])
    else [s[0]] + ReadText(s[1..])
  }

  lemma {:induction false} HexReads(d: nat)
    requires d < 16
    ensures HexValue(Hex(d)) == d
  {
  }

  lemma {:induction false} Regrouped(a: string, b: string, c: string)
    ensures (a + b) + c == a + (b + c)
  {
  }

  lemma {:induction false} EscapeReads(o: nat, after: string, n: nat)
    requires o < 256 && 3 * n <= |after|
    ensures EscapedOctets(['%', Hex(o / 16), Hex(o % 16)] + after, n + 1) == [o] + EscapedOctets(after, n)
  {
    var s := ['%', Hex(o / 16), Hex(o % 16)] + after;
    HexReads(o / 16);
    HexReads(o % 16);
    assert Octet(s) == o;
    assert s[3..] == after;
  }

  lemma {:induction false} PercentReads(os: seq<nat>, after: string)
    requires forall k :: 0 <= k < |os| ==> os[k] < 256
    ensures |Percent(os)| == 3 * |os| && EscapedOctets(Percent(os) + after, |os|) == os
  {
    PercentIsSafe(os);
    if os != [] {
      var first, rest := ['%', Hex(os[0] / 16), Hex(os[0] % 16)], Percent(os[1..]) + after;
      PercentReads(os[1..], after);
      EscapeReads(os[0], rest, |os| - 1);
      assert Percent(os) == first + Percent(os[1..]);
      Regrouped(first, Percent(os[1..]), after);
      assert [os[0]] + os[1..] == os;
    }
  }

  lemma {:induction false} DivideTwice(n: nat)
    ensures n / 4096 == n / 64 / 64
  {
  }

  lemma {:induction false} DivideThrice(n: nat)
    ensures n / 262144 == n / 4096 / 64
  {
  }

  lemma {:induction false} OctetsCombine(c: char)
    ensures 1 <= |Octets(c)| <= 4 && OctetCount(Octets(c)[0]) == |Octets(c)| && CodePoint(Octets(c)) == c as int
  {
    DivideTwice(c as int);
    DivideThrice(c as int);
  }

  lemma {:induction false} CharReads(c: char, after: string)
    ensures ReadText(Percent(Octets(c)) + after) == [c] + ReadText(after)
  {
    var os := Octets(c);
    var s := Percent(os) + after;
    OctetsCombine(c);
    PercentIsSafe(os);
    PercentReads(os, after);
    assert Octet(s) == os[0];
    assert s[3 * |os|..] == after;
  }

  lemma {:induction false} FormReads(s: string)
    ensures ReadText(FormText(s)) == s
  {
    if s != "" {
      var after := FormText(s[1..]);
      FormReads(s[1..]);
      if s[0] == ' ' || Kept(s[0]) {
        assert (FormChar(s[0]) + after)[1..] == after;
      } else {
        CharReads(s[0], after);
      }
      assert [s[0]] + s[1..] == s;
    }
  }

  /** What the router encodes is read back as well, for every text. */
  lemma {:induction false} EncodedReads(s: string)
    ensures ReadText(Encode(s)) == s
  {
    if s != "" {
      var after := Encode(s[1..]);
      EncodedReads(s[1..]);
      if Unreserved(s[0]) {
        assert ([s[0]] + after)[1..] == after;
      } else {
        CharReads(s[0], after);
      }
      assert [s[0]] + s[1..] == s;
    }
  }

  // ---------- pairs ----------

  lemma {:induction false} PercentLetters(os: seq<nat>)
    requires forall k :: 0 <= k < |os| ==> os[k] < 256
    ensures '&' !in Percent(os) && '=' !in Percent(os) && '?' !in Percent(os)
  {
    if os != [] {
      PercentLetters(os[1..]);
    }
  }

  lemma {:induction false} CharLetters(c: char)
    ensures '&' !in FormChar(c) && '=' !in FormChar(c) && '?' !in FormChar(c)
  {
    PercentLetters(Octets(c));
  }

  lemma {:induction false} FormLetters(s: string)
    ensures '&' !in FormText(s) && '=' !in FormText(s) && '?' !in FormText(s)
  {
    if s != "" {
      FormLetters(s[1..]);
      CharLetters(s[0]);
    }
  }

  function PairText(pair: (string, string)): string {
    FormText(pair.0) + ['='] + FormText(pair.1)
  }

  function ReadPair(s: string): (string, string) {
    var parts := Split(s, '=');
    (ReadText(parts[0]), ReadText(Join(parts[1..], "=")))
  }

  lemma {:induction false} PairReads(pair: (string, string))
    ensures ReadPair(PairText(pair)) == pair
    ensures '&' !in PairText(pair) && '?' !in PairText(pair) && PairText(pair) != ""
  {
    FormLetters(pair.0);
    FormLetters(pair.1);
    SplitFirst(FormText(pair.0), '=', FormText(pair.1));
    SplitWhole(FormText(pair.1), '=');
    assert Split(PairText(pair), '=')[1..] == [FormText(pair.1)];
    FormReads(pair.0);
    FormReads(pair.1);
  }

  function PairTexts(pairs: seq<(string, string)>): (texts: seq<string>)
    ensures |texts| == |pairs| && forall i :: 0 <= i < |pairs| ==> texts[i] == PairText(pairs[i])
  {
    seq(|pairs|, i requires 0 <= i < |pairs| => PairText(pairs[i]))
  }

  /** Empty parts are passed over. */
  function ReadPairs(parts: seq<string>): seq<(string, string)> {
    if parts == [] then []
    else (if parts[0] == "" then [] else [ReadPair(parts[0])]) + ReadPairs(parts[1..])
  }

  lemma {:induction false} PairsRead(pairs: seq<(string, string)>)
    ensures ReadPairs(PairTexts(pairs)) == pairs
  {
    if pairs != [] {
      assert PairTexts(pairs)[1..] == PairTexts(pairs[1..]);
      PairsRead(pairs[1..]);
      PairReads(pairs[0]);
    }
  }

  // ---------- records ----------

  /** The pairs of a record, in some order. */
  ghost function Listed(p: Params): (pairs: seq<(string, string)>)
    ensures Filled(pairs) == p && (p != map[] ==> pairs != [])
  {
    if p == map[] then []
    else
      var key :| key in p;
      var pairs := Listed(p - {key}) + [(key, p[key])];
      assert pairs[..|pairs| - 1] == Listed(p - {key});
      assert (p - {key})[key := p[key]] == p;
      pairs
  }

  ghost function Write(p: Params): string {
    Join(PairTexts(Listed(p)), "&")
  }

  function Read(s: string): seq<(string, string)> {
    ReadPairs(Split(s, '&'))
  }

  lemma {:induction false} WrittenReads(p: Params)
    requires p != map[]
    ensures Write(p) != "" && '?' !in Write(p) && Filled(Read(Write(p))) == p
  {
    var pairs := Listed(p);
    var texts := PairTexts(pairs);
    forall text | text in texts
      ensures '&' !in text && '?' !in text && text != ""
    {
      var i :| 0 <= i < |texts| && text == texts[i];
      PairReads(pairs[i]);
    }
    SplitUndoesJoin(texts, '&');
    JoinAvoids(texts, "&", '?');
    PairsRead(pairs);
    assert texts[0] != "";
  }

  /** What the router assumes of a codec can be met, by one that writes queries as forms do. */
  lemma {:induction false} FaithfulCodec() returns (q: QueryCodec)
    ensures Faithful(q)
  {
    q := QueryCodec(Write, Read);
    forall p: Params | p != map[]
      ensures q.write(p) != "" && '?' !in q.write(p) && Filled(q.pairs(q.write(p))) == p
    {
      WrittenReads(p);
    }
  }
}
