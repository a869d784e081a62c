/** The script from loading to the figures it computes (main.py lines 11-66,
    the user interface left aside): the frame is prepared, `net_by_vendor` is
    computed on every row, and the four summaries on the chosen window. Only
    the summaries are handed to `st.metric` (lines 63-66), each without the
    value argument it needs; `net_by_vendor` is computed and never read. */
module Analyzer {
  import opened Table
  import opened Summary
  import opened Groups
  import opened Ranking

  /** What the script computes: `net_by_vendor`, which nothing reads, and
      the four summaries it hands to `st.metric`. */
  datatype Report = Report(
    netByVendor: seq<VendorNet>,
    transactions: seq<VendorTotal>,
    credit: int,
    debit: int,
    net: int)

  /** The figures for normalised rows and a window: the per-vendor table
      adds up to the three totals. */
  function Analysis(rows: seq<Row>, start: int, end: int): (report: Report)
    ensures GroupsTotal(report.transactions, Credit) == report.credit
    ensures GroupsTotal(report.transactions, Debit) == report.debit
    ensures GroupsTotal(report.transactions, Net) == report.net
  {
    TransactionsAddUp(rows, start, end);
    Report(
      NetByVendor(rows),
      SummarizeTransactions(rows, start, end),
      SummarizeCredit(rows, start, end),
      SummarizeDebit(rows, start, end),
      SummarizeNet(rows, start, end))
  }

  /** The figures agree with each other: net is credit minus debit, and the
      per-vendor table adds up to the three totals. */
  predicate Consistent(report: Report) {
    report.net == report.credit - report.debit &&
    GroupsTotal(report.transactions, Credit) == report.credit &&
    GroupsTotal(report.transactions, Debit) == report.debit &&
    GroupsTotal(report.transactions, Net) == report.net &&
    forall g :: g in report.transactions ==> g.net == g.credit - g.debit
  }

  /** The figures of a loaded frame are consistent, for every window. */
  lemma AnalysisConsistent(raw: seq<RawRow>, start: int, end: int)
    ensures Consistent(Analysis(Normalized(raw), start, end))
  {
    var rows := Normalized(raw);
    NormalizedBalanced(raw);
    NetSummary(rows, start, end);
    TransactionsAddUp(rows, start, end);
    TransactionsBalanced(rows, start, end);
  }

  /** The script run on loaded rows: the frame is prepared in place, then
      read to produce the figures. */
  method Analyze(raw: seq<RawRow>, start: int, end: int) returns (report: Report)
    ensures report == Analysis(Normalized(raw), start, end)
    ensures Consistent(report)
  {
    var f := Prepare(raw);
    var rows := f.Rows();
    AnalysisConsistent(raw, start, end);
    report := Report(
      NetByVendor(rows),
      SummarizeTransactions(rows, start, end),
      SummarizeCredit(rows, start, end),
      SummarizeDebit(rows, start, end),
      SummarizeNet(rows, start, end));
  }
}
