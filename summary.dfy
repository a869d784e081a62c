/** The date window and the column totals of `summarize_credit`,
    `summarize_debit` and `summarize_net` (main.py lines 43-56): a row is kept
    when `start <= date <= end`, dates being day numbers, and a total is the
    sum of one column over the kept rows, in frame order. None of them changes
    the frame. */
module Summary {
  import opened Table

  /** The amount columns of a normalised frame. */
  datatype Column = Credit | Debit | Net

  function Amount(r: Row, c: Column): int {
    match c
    case Credit => r.credit
    case Debit => r.debit
    case Net => r.net
  }

  /** `Series.sum()`: 0 for no rows, and for a column of zeros. */
  function Total(rows: seq<Row>, c: Column): (t: int)
    ensures (forall r :: r in rows ==> Amount(r, c) == 0) ==> t == 0
    decreases |rows|
  {
    if |rows| == 0 then 0
    else
      var init := rows[..|rows| - 1];
      assert forall r :: r in init ==> r in rows;
      assert rows[|rows| - 1] in rows;
      Total(init, c) + Amount(rows[|rows| - 1], c)
  }

  lemma TotalSnoc(rows: seq<Row>, r: Row, c: Column)
    ensures Total(rows + [r], c) == Total(rows, c) + Amount(r, c)
  {
    assert (rows + [r])[..|rows|] == rows;
  }

  /** The mask `(date >= start) & (date <= end)`: both ends included. */
  predicate InWindow(date: int, start: int, end: int)
    ensures InWindow(date, start, end) ==> start <= end
    ensures start <= end && (date == start || date == end) ==> InWindow(date, start, end)
  {
    start <= date && date <= end
  }

  /** `df[mask]`: the rows inside the window, in frame order. */
  function Window(rows: seq<Row>, start: int, end: int): (kept: seq<Row>)
    ensures |kept| <= |rows|
    ensures forall r :: r in kept <==> r in rows && InWindow(r.date, start, end)
    decreases |rows|
  {
    if |rows| == 0 then []
    else
      var last := rows[|rows| - 1];
      assert rows == rows[..|rows| - 1] + [last];
      var w := Window(rows[..|rows| - 1], start, end);
      if InWindow(last.date, start, end) then w + [last] else w
  }

  /** `df[mask]` keeps every row of the window as often as the frame holds
      it, duplicates included, and no other row. */
  lemma {:induction false} WindowCounts(rows: seq<Row>, start: int, end: int)
    ensures forall x :: multiset(Window(rows, start, end))[x] == (if InWindow(x.date, start, end) then multiset(rows)[x] else 0)
    decreases |rows|
  {
    if |rows| > 0 {
      var init, last := rows[..|rows| - 1], rows[|rows| - 1];
      WindowCounts(init, start, end);
      assert rows == init + [last];
    }
  }

  lemma WindowSnoc(rows: seq<Row>, r: Row, start: int, end: int)
    ensures Window(rows + [r], start, end) ==
      Window(rows, start, end) + (if InWindow(r.date, start, end) then [r] else [])
  {
    assert (rows + [r])[..|rows|] == rows;
  }

  /** A start after the end keeps no row; a window that holds every row
      keeps the frame as it is. */
  lemma {:induction false} WindowExtremes(rows: seq<Row>, start: int, end: int)
    ensures start > end ==> Window(rows, start, end) == []
    ensures (forall r :: r in rows ==> InWindow(r.date, start, end)) ==> Window(rows, start, end) == rows
    decreases |rows|
  {
    if |rows| > 0 {
      var init, last := rows[..|rows| - 1], rows[|rows| - 1];
      assert forall r :: r in init ==> r in rows;
      assert last in rows;
      WindowExtremes(init, start, end);
      assert init + [last] == rows;
    }
  }

  /** `summarize_credit`: the credit sum over the window; 0 when the start is
      after the end, the whole column when every row is inside. */
  function SummarizeCredit(rows: seq<Row>, start: int, end: int): (total: int)
    ensures start > end ==> total == 0
    ensures (forall r :: r in rows ==> InWindow(r.date, start, end)) ==> total == Total(rows, Credit)
  {
    WindowExtremes(rows, start, end);
    Total(Window(rows, start, end), Credit)
  }

  /** `summarize_debit`, likewise for the debit column. */
  function SummarizeDebit(rows: seq<Row>, start: int, end: int): (total: int)
    ensures start > end ==> total == 0
    ensures (forall r :: r in rows ==> InWindow(r.date, start, end)) ==> total == Total(rows, Debit)
  {
    WindowExtremes(rows, start, end);
    Total(Window(rows, start, end), Debit)
  }

  /** `summarize_net`, likewise for the net column. */
  function SummarizeNet(rows: seq<Row>, start: int, end: int): (total: int)
    ensures start > end ==> total == 0
    ensures (forall r :: r in rows ==> InWindow(r.date, start, end)) ==> total == Total(rows, Net)
  {
    WindowExtremes(rows, start, end);
    Total(Window(rows, start, end), Net)
  }

  /** The total a summary reports for one column. */
  function Summarize(rows: seq<Row>, start: int, end: int, c: Column): int {
    match c
    case Credit => SummarizeCredit(rows, start, end)
    case Debit => SummarizeDebit(rows, start, end)
    case Net => SummarizeNet(rows, start, end)
  }

  /** One more row adds its amount to every total when its date lies in the
      window, the first and the last day included, and adds nothing
      otherwise. */
  lemma RowContribution(rows: seq<Row>, r: Row, start: int, end: int, c: Column)
    ensures Summarize(rows + [r], start, end, c) ==
      Summarize(rows, start, end, c) + (if start <= r.date <= end then Amount(r, c) else 0)
  {
    WindowSnoc(rows, r, start, end);
    TotalSnoc(Window(rows, start, end), r, c);
  }

  /** On day numbers, a start after the end keeps no row, so every total
      is 0. */
  lemma EmptyWindow(rows: seq<Row>, start: int, end: int)
    requires start > end
    ensures Window(rows, start, end) == []
    ensures SummarizeCredit(rows, start, end) == 0 && SummarizeDebit(rows, start, end) == 0
    ensures SummarizeNet(rows, start, end) == 0
  {
    WindowExtremes(rows, start, end);
  }

  /** Every row's net is its credit minus its debit, as after main.py
      line 22. */
  predicate Balanced(rows: seq<Row>) {
    forall r :: r in rows ==> r.net == r.credit - r.debit
  }

  lemma {:induction false} TotalBalanced(rows: seq<Row>)
    requires Balanced(rows)
    ensures Total(rows, Net) == Total(rows, Credit) - Total(rows, Debit)
    decreases |rows|
  {
    if |rows| > 0 {
      var init := rows[..|rows| - 1];
      assert forall r :: r in init ==> r in rows;
      TotalBalanced(init);
    }
  }

  /** The net total of a window is its credit total minus its debit total. */
  lemma NetSummary(rows: seq<Row>, start: int, end: int)
    requires Balanced(rows)
    ensures SummarizeNet(rows, start, end) == SummarizeCredit(rows, start, end) - SummarizeDebit(rows, start, end)
  {
    TotalBalanced(Window(rows, start, end));
  }

  /** The rows the script builds are balanced. */
  lemma NormalizedBalanced(raw: seq<RawRow>)
    ensures Balanced(Normalized(raw))
  {
    var rows := Normalized(raw);
    forall r | r in rows ensures r.net == r.credit - r.debit {
      var i :| 0 <= i < |rows| && rows[i] == r;
      assert r == Normalize(raw[i]);
    }
  }
}
