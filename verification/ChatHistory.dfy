/**
 Stored messages and the history window of api/src/chat/persistence.ts. The rows
 of a conversation are kept in the order of their turn index, as its queries
 return them; the size estimate of a text is left open.
 */
module ChatHistory {

  datatype Role = User | Assistant

  datatype Row = Row(turnIndex: int, role: Role, content: string)

  /** `UNIQUE(conversation_id, turn_index)` lets each index occur once. */
  ghost predicate Ascending(rows: seq<Row>) {
    forall i, j :: 0 <= i < j < |rows| ==> rows[i].turnIndex < rows[j].turnIndex
  }

  predicate HasIndex(rows: seq<Row>, turnIndex: int) {
    exists i :: 0 <= i < |rows| && rows[i].turnIndex == turnIndex
  }

  /** The rows with one more, at its place. */
  function Inserted(rows: seq<Row>, r: Row): seq<Row> {
    if rows == [] || rows[|rows| - 1].turnIndex < r.turnIndex then rows + [r]
    else Inserted(rows[..|rows| - 1], r) + [rows[|rows| - 1]]
  }

  lemma {:induction false} ComesFrom(t: seq<Row>, front: seq<Row>, r: Row, i: nat)
    requires i < |t| && multiset(t) == multiset(front) + multiset{r}
    ensures t[i] == r || t[i] in front
  {
    assert t[i] in multiset(t);
  }

  lemma {:induction false} InsertedHas(rows: seq<Row>, r: Row)
    ensures multiset(Inserted(rows, r)) == multiset(rows) + multiset{r}
  {
    if rows != [] && rows[|rows| - 1].turnIndex >= r.turnIndex {
      InsertedHas(rows[..|rows| - 1], r);
      assert rows == rows[..|rows| - 1] + [rows[|rows| - 1]];
    }
  }

  lemma {:induction false} InsertedIs(rows: seq<Row>, r: Row)
    requires Ascending(rows) && !HasIndex(rows, r.turnIndex)
    ensures Ascending(Inserted(rows, r)) && multiset(Inserted(rows, r)) == multiset(rows) + multiset{r}
  {
    InsertedHas(rows, r);
    if rows != [] && rows[|rows| - 1].turnIndex >= r.turnIndex {
      var front, last := rows[..|rows| - 1], rows[|rows| - 1];
      assert rows == front + [last];
      assert last.turnIndex != r.turnIndex;
      FrontKeeps(front, last, r.turnIndex);
      InsertedIs(front, r);
      StaysBelow(Inserted(front, r), front, r, last);
    }
  }

  lemma {:induction false} FrontKeeps(front: seq<Row>, last: Row, turnIndex: int)
    requires Ascending(front + [last]) && !HasIndex(front + [last], turnIndex)
    ensures Ascending(front) && !HasIndex(front, turnIndex)
  {
    assert forall i :: 0 <= i < |front| ==> (front + [last])[i] == front[i];
  }

  lemma {:induction false} StaysBelow(t: seq<Row>, front: seq<Row>, r: Row, last: Row)
    requires multiset(t) == multiset(front) + multiset{r} && Ascending(t)
    requires Ascending(front + [last]) && r.turnIndex < last.turnIndex
    ensures Ascending(t + [last])
  {
    forall i | 0 <= i < |t|
      ensures t[i].turnIndex < last.turnIndex
    {
      ComesFrom(t, front, r, i);
      if t[i] in front {
        var j :| 0 <= j < |front| && front[j] == t[i];
        assert (front + [last])[j] == t[i] && (front + [last])[|front|] == last;
      }
    }
  }

  // ---------- the window of history ----------

  function Total(rows: seq<Row>, estimate: string -> nat): nat {
    if rows == [] then 0 else estimate(rows[0].content) + Total(rows[1..], estimate)
  }

  /** The newest rows, oldest first. */
  function Newest(rows: seq<Row>, maxMessages: nat): seq<Row> {
    if |rows| <= maxMessages then rows else rows[|rows| - maxMessages..]
  }

  /** `h` is the longest suffix of `rows` within the budget. */
  ghost predicate IsLongestFitting(rows: seq<Row>, estimate: string -> nat, budget: int, h: seq<Row>) {
    exists k :: 0 <= k <= |rows| && h == rows[k..] && FirstFitting(rows, estimate, budget, k)
  }

  /** The suffix from `k` fits, or is empty, and no longer suffix fits. */
  ghost predicate FirstFitting(rows: seq<Row>, estimate: string -> nat, budget: int, k: nat)
    requires k <= |rows|
  {
    && (k < |rows| ==> Total(rows[k..], estimate) <= budget)
    && forall j :: 0 <= j < k ==> Total(rows[j..], estimate) > budget
  }

  method LoadConversationHistory(rows: seq<Row>, maxMessages: nat, maxTokens: int, estimate: string -> nat)
    returns (history: seq<Row>)
    ensures IsLongestFitting(Newest(rows, maxMessages), estimate, maxTokens, history)
  {
    var asc := Newest(rows, maxMessages);
    var total := SumUp(asc, estimate);
    var i := 0;
    while i < |asc| && total > maxTokens
      invariant i <= |asc| && total == Total(asc[i..], estimate)
      invariant forall j :: 0 <= j < i ==> Total(asc[j..], estimate) > maxTokens
    {
      assert asc[i..][1..] == asc[i + 1..];
      total := total - estimate(asc[i].content);
      i := i + 1;
    }
    history := asc[i..];
    assert FirstFitting(asc, estimate, maxTokens, i);
  }

  method SumUp(rows: seq<Row>, estimate: string -> nat) returns (total: nat)
    ensures total == Total(rows, estimate)
  {
    total := 0;
    for i := 0 to |rows|
      invariant total == Total(rows[..i], estimate)
    {
      TotalSnoc(rows[..i], rows[i], estimate);
      assert rows[..i + 1] == rows[..i] + [rows[i]];
      total := total + estimate(rows[i].content);
    }
    assert rows[..|rows|] == rows;
  }

  lemma {:induction false} TotalSnoc(rows: seq<Row>, r: Row, estimate: string -> nat)
    ensures Total(rows + [r], estimate) == Total(rows, estimate) + estimate(r.content)
  {
    if rows == [] {
      assert [r][1..] == [] && rows + [r] == [r];
    } else {
      TotalSnoc(rows[1..], r, estimate);
      assert (rows + [r])[1..] == rows[1..] + [r];
    }
  }

  lemma {:induction false} TotalFromEnd(rows: seq<Row>, k: nat, estimate: string -> nat)
    requires k < |rows|
    ensures Total(rows[k..], estimate) >= estimate(rows[|rows| - 1].content)
  {
    var tail := rows[k..];
    TotalSnoc(tail[..|tail| - 1], tail[|tail| - 1], estimate);
    assert tail == tail[..|tail| - 1] + [tail[|tail| - 1]];
  }

  lemma {:induction false} TotalShrinks(rows: seq<Row>, j: nat, k: nat, estimate: string -> nat)
    requires j <= k <= |rows|
    ensures Total(rows[k..], estimate) <= Total(rows[j..], estimate)
    decreases k - j
  {
    if j < k {
      assert rows[j..][1..] == rows[j + 1..];
      TotalShrinks(rows, j + 1, k, estimate);
    }
  }

  /** The suffixes that fit are exactly those no longer than the history, so there is only one history. */
  lemma {:induction false} FittingSuffixes(rows: seq<Row>, estimate: string -> nat, budget: int, h: seq<Row>, j: nat)
    requires IsLongestFitting(rows, estimate, budget, h) && j < |rows|
    ensures Total(rows[j..], estimate) <= budget <==> |rows| - j <= |h|
  {
    var k :| 0 <= k <= |rows| && h == rows[k..] && FirstFitting(rows, estimate, budget, k);
    if k <= j {
      TotalShrinks(rows, k, j, estimate);
    }
  }

  /** The history is empty exactly when there is no row or the newest does not fit. */
  lemma {:induction false} EmptyHistory(rows: seq<Row>, maxMessages: nat, budget: int, estimate: string -> nat,
                                        h: seq<Row>)
    requires IsLongestFitting(Newest(rows, maxMessages), estimate, budget, h) && maxMessages > 0
    ensures h == [] <==> rows == [] || estimate(rows[|rows| - 1].content) > budget
    ensures h != [] ==> h[|h| - 1] == rows[|rows| - 1]
  {
    var asc := Newest(rows, maxMessages);
    if rows != [] {
      var newest := rows[|rows| - 1];
      assert asc[|asc| - 1] == newest;
      assert asc[|asc| - 1..] == [newest];
      assert [newest][1..] == [];
      assert Total([newest], estimate) == estimate(newest.content);
      var k :| 0 <= k <= |asc| && h == asc[k..] && FirstFitting(asc, estimate, budget, k);
      if k < |asc| {
        TotalFromEnd(asc, k, estimate);
      }
    }
  }

  /** The history is made of the newest rows, at most the maximum of them, */
  lemma {:induction false} WindowIs(rows: seq<Row>, maxMessages: nat, budget: int, estimate: string -> nat, h: seq<Row>)
    requires IsLongestFitting(Newest(rows, maxMessages), estimate, budget, h)
    ensures |h| <= maxMessages && |h| <= |rows| && h == rows[|rows| - |h|..]
  {
    var k := LongestIsSuffix(Newest(rows, maxMessages), estimate, budget, h);
    SuffixOfNewest(rows, maxMessages, k);
  }

  lemma {:induction false} LongestIsSuffix(rows: seq<Row>, estimate: string -> nat, budget: int, h: seq<Row>)
    returns (k: nat)
    requires IsLongestFitting(rows, estimate, budget, h)
    ensures k <= |rows| && h == rows[k..]
  {
    k :| 0 <= k <= |rows| && h == rows[k..] && FirstFitting(rows, estimate, budget, k);
  }

  lemma {:induction false} SuffixOfNewest(rows: seq<Row>, maxMessages: nat, k: nat)
    requires k <= |Newest(rows, maxMessages)|
    ensures var h := Newest(rows, maxMessages)[k..];
            |h| <= maxMessages && |h| <= |rows| && h == rows[|rows| - |h|..]
  {
  }

  /** as many as fit the budget. */
  lemma {:induction false} WindowFits(rows: seq<Row>, maxMessages: nat, budget: int, estimate: string -> nat,
                                      h: seq<Row>, n: nat)
    requires IsLongestFitting(Newest(rows, maxMessages), estimate, budget, h)
    requires 0 < n <= |rows| && n <= maxMessages
    ensures Total(rows[|rows| - n..], estimate) <= budget <==> n <= |h|
  {
    SameSuffix(rows, maxMessages, n);
    LastFit(Newest(rows, maxMessages), estimate, budget, h, n, rows[|rows| - n..]);
  }

  lemma {:induction false} LastFit(asc: seq<Row>, estimate: string -> nat, budget: int, h: seq<Row>, n: nat,
                                   last: seq<Row>)
    requires IsLongestFitting(asc, estimate, budget, h) && 0 < n <= |asc| && last == asc[|asc| - n..]
    ensures Total(last, estimate) <= budget <==> n <= |h|
  {
    FittingSuffixes(asc, estimate, budget, h, |asc| - n);
  }

  lemma {:induction false} SameSuffix(rows: seq<Row>, maxMessages: nat, n: nat)
    requires n <= |rows| && n <= maxMessages
    ensures var asc := Newest(rows, maxMessages);
            n <= |asc| && asc[|asc| - n..] == rows[|rows| - n..]
  {
  }
}
