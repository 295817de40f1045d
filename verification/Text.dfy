/** JavaScript's split, join and white space, shared by the other modules. */
module Text {

  /** Array.join. */
  function Join(parts: seq<string>, separator: string): string {
    if parts == [] then ""
    else if |parts| == 1 then parts[0]
    else parts[0] + separator + Join(parts[1..], separator)
  }

  /** String.split with a one-character separator. */
  function Split(s: string, sep: char): (parts: seq<string>)
    ensures |parts| >= 1
  {
    if s == "" then [""]
    else
      var rest := Split(s[1..], sep);
      if s[0] == sep then [""] + rest else [[s[0]] + rest[0]] + rest[1..]
  }

  lemma {:induction false} SplitFirst(a: string, sep: char, b: string)
    requires sep !in a
    ensures Split(a + [sep] + b, sep) == [a] + Split(b, sep)
    decreases |a|
  {
    var s := a + [sep] + b;
    if a == "" {
      assert s[0] == sep && s[1..] == b;
    } else {
      assert s[0] == a[0] && s[1..] == a[1..] + [sep] + b;
      SplitFirst(a[1..], sep, b);
      assert [a[0]] + a[1..] == a;
    }
  }

  lemma {:induction false} SplitWhole(a: string, sep: char)
    requires sep !in a
    ensures Split(a, sep) == [a]
    decreases |a|
  {
    if a != "" {
      SplitWhole(a[1..], sep);
      assert [a[0]] + a[1..] == a;
    }
  }

  lemma {:induction false} SplitUndoesJoin(parts: seq<string>, sep: char)
    requires |parts| >= 1
    requires forall p :: p in parts ==> sep !in p
    ensures Split(Join(parts, [sep]), sep) == parts
    decreases |parts|
  {
    if |parts| == 1 {
      SplitWhole(parts[0], sep);
    } else {
      SplitUndoesJoin(parts[1..], sep);
      SplitFirst(parts[0], sep, Join(parts[1..], [sep]));
    }
  }

  lemma {:induction false} JoinAvoids(parts: seq<string>, separator: string, c: char)
    requires c !in separator
    requires forall p :: p in parts ==> c !in p
    ensures c !in Join(parts, separator)
    decreases |parts|
  {
    if |parts| > 1 {
      JoinAvoids(parts[1..], separator, c);
    }
  }

  lemma {:induction false} JoinOneMore(parts: seq<string>, separator: string, last: string)
    requires parts != []
    ensures Join(parts + [last], separator) == Join(parts, separator) + separator + last
    decreases |parts|
  {
    assert (parts + [last])[1..] == parts[1..] + [last];
    if |parts| > 1 {
      JoinOneMore(parts[1..], separator, last);
    }
  }

  /** The characters JavaScript's trim and \s treat as white space. */
  predicate Space(c: char) {
    var n := c as int;
    || 0x09 <= n <= 0x0D || n == 0x20 || n == 0xA0 || n == 0x1680 || 0x2000 <= n <= 0x200A
    || n == 0x2028 || n == 0x2029 || n == 0x202F || n == 0x205F || n == 0x3000 || n == 0xFEFF
  }

  /** How many runs of characters there are between white space. */
  function Words(s: string): nat {
    if s == "" then 0
    else
      var front, last := s[..|s| - 1], s[|s| - 1];
      Words(front) + if !Space(last) && (front == "" || Space(front[|front| - 1])) then 1 else 0
  }

  /** Words are at least one character long and one character apart. */
  lemma {:induction false} WordsBound(s: string)
    ensures 2 * Words(s) <= |s| + 1
    ensures s != "" && Space(s[|s| - 1]) ==> 2 * Words(s) <= |s|
  {
    if s != "" {
      WordsBound(s[..|s| - 1]);
    }
  }

  ghost predicate StartsWord(s: string, i: int) {
    0 <= i < |s| && !Space(s[i]) && (i == 0 || Space(s[i - 1]))
  }

  /** The places where a word begins. */
  ghost function WordStarts(s: string): set<int> {
    set i | 0 <= i < |s| && StartsWord(s, i)
  }

  lemma {:induction false} WordsAre(s: string)
    ensures Words(s) == |WordStarts(s)|
  {
    if s == "" {
      assert WordStarts(s) == {};
    } else {
      var front, n := s[..|s| - 1], |s| - 1;
      WordsAre(front);
      assert forall i :: 0 <= i < n ==> (StartsWord(s, i) <==> StartsWord(front, i));
      assert WordStarts(s) == WordStarts(front) + if StartsWord(s, n) then {n} else {};
    }
  }
}
