/** `groupby("Vendor")` followed by `sum()` and `reset_index()`: one row per
    distinct vendor label, in ascending label order (pandas sorts group keys
    by default), holding the sums of that vendor's rows. Used by
    `summarize_transactions` (main.py lines 58-61) on the rows of a window,
    and by `net_by_vendor` (main.py line 40) on every row. */
module Groups {
  import opened Table
  import opened Summary
  import opened StrOrder

  /** A row of the grouped frame. */
  datatype VendorTotal = VendorTotal(vendor: string, credit: int, debit: int, net: int)

  function Zero(v: string): VendorTotal {
    VendorTotal(v, 0, 0, 0)
  }

  /** A group with one more row of its vendor added in. */
  function Plus(g: VendorTotal, r: Row): VendorTotal {
    VendorTotal(g.vendor, g.credit + r.credit, g.debit + r.debit, g.net + r.net)
  }

  function Pick(g: VendorTotal, c: Column): int {
    match c
    case Credit => g.credit
    case Debit => g.debit
    case Net => g.net
  }

  /** The vendor labels that occur in some rows. */
  function Vendors(rows: seq<Row>): set<string> {
    set r | r in rows :: r.vendor
  }

  /** The group keys of a grouped frame. */
  function Keys(groups: seq<VendorTotal>): set<string> {
    set g | g in groups :: g.vendor
  }

  /** The rows of one vendor, in frame order. */
  function Only(rows: seq<Row>, v: string): seq<Row>
    decreases |rows|
  {
    if |rows| == 0 then []
    else
      var last := rows[|rows| - 1];
      var o := Only(rows[..|rows| - 1], v);
      if last.vendor == v then o + [last] else o
  }

  /** A vendor's rows are the rows with its label. */
  lemma {:induction false} OnlyMembers(rows: seq<Row>, v: string)
    ensures forall r :: r in Only(rows, v) <==> r in rows && r.vendor == v
    decreases |rows|
  {
    if |rows| > 0 {
      var init, last := rows[..|rows| - 1], rows[|rows| - 1];
      OnlyMembers(init, v);
      assert rows == init + [last];
    }
  }

  /** A vendor's rows occur as often as in the frame, duplicates included. */
  lemma {:induction false} OnlyCounts(rows: seq<Row>, v: string)
    ensures forall x :: multiset(Only(rows, v))[x] == if x.vendor == v then multiset(rows)[x] else 0
    decreases |rows|
  {
    if |rows| > 0 {
      var init, last := rows[..|rows| - 1], rows[|rows| - 1];
      OnlyCounts(init, v);
      assert rows == init + [last];
    }
  }

  /** What a group of vendor `v` must hold: the sums over `v`'s rows. */
  function Group(rows: seq<Row>, v: string): VendorTotal {
    var mine := Only(rows, v);
    VendorTotal(v, Total(mine, Credit), Total(mine, Debit), Total(mine, Net))
  }

  /** The group keys are strictly ascending, hence distinct. */
  predicate Ascending(groups: seq<VendorTotal>) {
    forall i, j :: 0 <= i < j < |groups| ==> Below(groups[i].vendor, groups[j].vendor)
  }

  /** One row folded into an ascending grouped frame: added to its vendor's
      group, or a new group in its place in the order. */
  function Add(groups: seq<VendorTotal>, r: Row): (res: seq<VendorTotal>)
    ensures |groups| <= |res| <= |groups| + 1
    decreases |groups|
  {
    if |groups| == 0 then [Plus(Zero(r.vendor), r)]
    else if groups[0].vendor == r.vendor then [Plus(groups[0], r)] + groups[1..]
    else if Below(r.vendor, groups[0].vendor) then [Plus(Zero(r.vendor), r)] + groups
    else [groups[0]] + Add(groups[1..], r)
  }

  /** `rows.groupby("Vendor")[columns].sum().reset_index()`: at most one
      group per row, and some group as soon as there is a row. */
  function GroupByVendor(rows: seq<Row>): (groups: seq<VendorTotal>)
    ensures |groups| <= |rows|
    ensures |groups| == 0 <==> |rows| == 0
    decreases |rows|
  {
    if |rows| == 0 then [] else Add(GroupByVendor(rows[..|rows| - 1]), rows[|rows| - 1])
  }

  lemma KeysCons(g: VendorTotal, groups: seq<VendorTotal>)
    ensures Keys([g] + groups) == {g.vendor} + Keys(groups)
  {
    var all := [g] + groups;
    forall x | x in all ensures x == g || x in groups {
      var i :| 0 <= i < |all| && all[i] == x;
      if i > 0 {
        assert groups[i - 1] == x;
      }
    }
    assert all[0] == g;
    forall x | x in groups ensures x in all {
      var i :| 0 <= i < |groups| && groups[i] == x;
      assert all[i + 1] == x;
    }
  }

  /** A row's vendor becomes a key, and no other key appears. */
  lemma {:induction false} AddKeys(groups: seq<VendorTotal>, r: Row)
    ensures Keys(Add(groups, r)) == Keys(groups) + {r.vendor}
    decreases |groups|
  {
    if |groups| > 0 {
      var g0, tail := groups[0], groups[1..];
      assert groups == [g0] + tail;
      KeysCons(g0, tail);
      if g0.vendor == r.vendor {
        KeysCons(Plus(g0, r), tail);
      } else if Below(r.vendor, g0.vendor) {
        KeysCons(Plus(Zero(r.vendor), r), groups);
      } else {
        AddKeys(tail, r);
        KeysCons(g0, Add(tail, r));
      }
    }
  }

  /** The keys of the grouped frame are the rows' vendor labels. */
  lemma {:induction false} GroupKeys(rows: seq<Row>)
    ensures Keys(GroupByVendor(rows)) == Vendors(rows)
    decreases |rows|
  {
    if |rows| > 0 {
      var init, last := rows[..|rows| - 1], rows[|rows| - 1];
      GroupKeys(init);
      AddKeys(GroupByVendor(init), last);
      assert rows == init + [last];
    }
  }

  /** The sum of one column of a grouped frame. */
  function GroupsTotal(groups: seq<VendorTotal>, c: Column): int
    decreases |groups|
  {
    if |groups| == 0 then 0 else Pick(groups[0], c) + GroupsTotal(groups[1..], c)
  }

  /** `summarize_transactions`: the window's rows grouped by vendor; the
      table is empty exactly when no row lies in the window. */
  function SummarizeTransactions(rows: seq<Row>, start: int, end: int): (groups: seq<VendorTotal>)
    ensures |groups| <= |rows|
    ensures |groups| == 0 <==> forall r :: r in rows ==> !InWindow(r.date, start, end)
  {
    var w := Window(rows, start, end);
    assert |w| > 0 ==> w[0] in w;
    GroupByVendor(w)
  }

  lemma {:induction false} AddAscending(groups: seq<VendorTotal>, r: Row)
    requires Ascending(groups)
    ensures Ascending(Add(groups, r))
    decreases |groups|
  {
    var res := Add(groups, r);
    if |groups| > 0 && groups[0].vendor != r.vendor {
      var v0 := groups[0].vendor;
      if Below(r.vendor, v0) {
        forall j | 0 < j < |res| ensures Below(r.vendor, res[j].vendor) {
          if j > 1 {
            BelowTransitive(r.vendor, v0, groups[j - 1].vendor);
          }
        }
      } else {
        var tail := Add(groups[1..], r);
        AddAscending(groups[1..], r);
        AddKeys(groups[1..], r);
        BelowTotal(v0, r.vendor);
        forall j | 0 <= j < |tail| ensures Below(v0, tail[j].vendor) {
          var w := tail[j].vendor;
          assert w in Keys(tail);
          if w != r.vendor {
            var g :| g in groups[1..] && g.vendor == w;
            var k :| 0 <= k < |groups[1..]| && groups[1..][k] == g;
            assert groups[k + 1] == g;
          }
        }
        assert res == [groups[0]] + tail;
      }
    }
  }

  /** Groups other than `r`'s are left alone by a new row. */
  lemma GroupSnoc(rows: seq<Row>, r: Row, v: string)
    ensures Group(rows + [r], v) == if r.vendor == v then Plus(Group(rows, v), r) else Group(rows, v)
  {
    assert (rows + [r])[..|rows|] == rows;
    var mine := Only(rows, v);
    if r.vendor == v {
      TotalSnoc(mine, r, Credit);
      TotalSnoc(mine, r, Debit);
      TotalSnoc(mine, r, Net);
    }
  }

  /** A vendor with no rows has an all-zero group. */
  lemma GroupAbsent(rows: seq<Row>, v: string)
    requires v !in Vendors(rows)
    ensures Group(rows, v) == Zero(v)
  {
    OnlyMembers(rows, v);
  }

  /** Each group holds the sums of its vendor's rows. */
  predicate Faithful(groups: seq<VendorTotal>, rows: seq<Row>) {
    forall i :: 0 <= i < |groups| ==> groups[i] == Group(rows, groups[i].vendor)
  }

  lemma FaithfulCons(g: VendorTotal, groups: seq<VendorTotal>, rows: seq<Row>)
    requires g == Group(rows, g.vendor) && Faithful(groups, rows)
    ensures Faithful([g] + groups, rows)
  {
    var all := [g] + groups;
    forall i | 0 < i < |all| ensures all[i] == groups[i - 1] { }
  }

  /** A row of another vendor leaves the groups as they are. */
  lemma Untouched(groups: seq<VendorTotal>, rows: seq<Row>, r: Row)
    requires Faithful(groups, rows) && r.vendor !in Keys(groups)
    ensures Faithful(groups, rows + [r])
  {
    forall i | 0 <= i < |groups| ensures groups[i] == Group(rows + [r], groups[i].vendor) {
      assert groups[i] in groups;
      GroupSnoc(rows, r, groups[i].vendor);
    }
  }

  /** Below an ascending frame's first key lies no key of it; the first key
      does not come back. */
  lemma AscendingKeys(groups: seq<VendorTotal>, v: string)
    requires Ascending(groups) && |groups| > 0
    requires Below(v, groups[0].vendor) || v == groups[0].vendor
    ensures v !in Keys(groups[1..])
    ensures v != groups[0].vendor ==> v !in Keys(groups)
  {
    BelowIrreflexive(v);
    forall g | g in groups ensures g.vendor != v || g == groups[0] {
      var i :| 0 <= i < |groups| && groups[i] == g;
      if i > 0 {
        BelowIrreflexive(groups[i].vendor);
        if v != groups[0].vendor {
          BelowTransitive(v, groups[0].vendor, groups[i].vendor);
        }
      }
    }
    forall g | g in groups[1..] ensures g.vendor != v {
      var i :| 0 <= i < |groups[1..]| && groups[1..][i] == g;
      assert groups[i + 1] == g;
      BelowIrreflexive(g.vendor);
      if v != groups[0].vendor {
        BelowTransitive(v, groups[0].vendor, g.vendor);
      }
    }
  }

  lemma {:induction false} AddGroups(groups: seq<VendorTotal>, rows: seq<Row>, r: Row)
    requires Ascending(groups) && Faithful(groups, rows)
    requires r.vendor in Vendors(rows) ==> r.vendor in Keys(groups)
    ensures Faithful(Add(groups, r), rows + [r])
    decreases |groups|
  {
    var v := r.vendor;
    if |groups| == 0 {
      GroupAbsent(rows, v);
      GroupSnoc(rows, r, v);
    } else {
      var g0, tail := groups[0], groups[1..];
      assert Faithful(tail, rows);
      if g0.vendor == v {
        AscendingKeys(groups, v);
        Untouched(tail, rows, r);
        GroupSnoc(rows, r, v);
        FaithfulCons(Plus(g0, r), tail, rows + [r]);
      } else if Below(v, g0.vendor) {
        AscendingKeys(groups, v);
        Untouched(groups, rows, r);
        GroupAbsent(rows, v);
        GroupSnoc(rows, r, v);
        FaithfulCons(Plus(Zero(v), r), groups, rows + [r]);
      } else {
        assert groups == [g0] + tail;
        KeysCons(g0, tail);
        AddGroups(tail, rows, r);
        GroupSnoc(rows, r, g0.vendor);
        FaithfulCons(g0, Add(tail, r), rows + [r]);
      }
    }
  }

  /** The grouped frame is the one pandas returns: its keys are exactly the
      vendor labels of the rows, strictly ascending, and each group holds the
      credit, debit and net sums of its vendor's rows. */
  lemma {:induction false} GroupByVendorSpec(rows: seq<Row>)
    ensures var groups := GroupByVendor(rows);
      Keys(groups) == Vendors(rows) && Ascending(groups) && Faithful(groups, rows)
    decreases |rows|
  {
    if |rows| > 0 {
      var init, last := rows[..|rows| - 1], rows[|rows| - 1];
      GroupByVendorSpec(init);
      GroupKeys(rows);
      AddAscending(GroupByVendor(init), last);
      AddGroups(GroupByVendor(init), init, last);
      assert init + [last] == rows;
    }
  }

  lemma {:induction false} AddTotal(groups: seq<VendorTotal>, r: Row, c: Column)
    ensures GroupsTotal(Add(groups, r), c) == GroupsTotal(groups, c) + Amount(r, c)
    decreases |groups|
  {
    if |groups| > 0 {
      if groups[0].vendor == r.vendor {
        assert Add(groups, r)[1..] == groups[1..];
      } else if Below(r.vendor, groups[0].vendor) {
        assert Add(groups, r)[1..] == groups;
      } else {
        AddTotal(groups[1..], r, c);
        assert Add(groups, r)[1..] == Add(groups[1..], r);
      }
    }
  }

  /** Grouping loses and duplicates nothing: each column of the grouped frame
      adds up to the same column of the rows. */
  lemma {:induction false} GroupTotals(rows: seq<Row>, c: Column)
    ensures GroupsTotal(GroupByVendor(rows), c) == Total(rows, c)
    decreases |rows|
  {
    if |rows| > 0 {
      GroupTotals(rows[..|rows| - 1], c);
      AddTotal(GroupByVendor(rows[..|rows| - 1]), rows[|rows| - 1], c);
    }
  }

  /** `summarize_transactions` adds up to `summarize_credit`,
      `summarize_debit` and `summarize_net` over the same window. */
  lemma TransactionsAddUp(rows: seq<Row>, start: int, end: int)
    ensures GroupsTotal(SummarizeTransactions(rows, start, end), Credit) == SummarizeCredit(rows, start, end)
    ensures GroupsTotal(SummarizeTransactions(rows, start, end), Debit) == SummarizeDebit(rows, start, end)
    ensures GroupsTotal(SummarizeTransactions(rows, start, end), Net) == SummarizeNet(rows, start, end)
  {
    var w := Window(rows, start, end);
    GroupTotals(w, Credit);
    GroupTotals(w, Debit);
    GroupTotals(w, Net);
  }

  /** Every vendor of a row in the window has exactly one group, and there is
      no other group. */
  lemma TransactionsGroups(rows: seq<Row>, start: int, end: int)
    ensures var groups := SummarizeTransactions(rows, start, end);
      (forall r :: r in rows && InWindow(r.date, start, end) ==> r.vendor in Keys(groups)) &&
      (forall g :: g in groups ==> exists r :: r in rows && InWindow(r.date, start, end) && r.vendor == g.vendor) &&
      (forall i, j :: 0 <= i < j < |groups| ==> groups[i].vendor != groups[j].vendor)
  {
    var w := Window(rows, start, end);
    var groups := GroupByVendor(w);
    GroupByVendorSpec(w);
    forall i, j | 0 <= i < j < |groups| ensures groups[i].vendor != groups[j].vendor {
      BelowIrreflexive(groups[i].vendor);
    }
    forall g | g in groups
      ensures exists r :: r in rows && InWindow(r.date, start, end) && r.vendor == g.vendor
    {
      assert g.vendor in Keys(groups);
    }
  }

  /** With every row balanced, every group's net is its credit minus its
      debit. */
  lemma TransactionsBalanced(rows: seq<Row>, start: int, end: int)
    requires Balanced(rows)
    ensures forall g :: g in SummarizeTransactions(rows, start, end) ==> g.net == g.credit - g.debit
  {
    var w := Window(rows, start, end);
    var groups := GroupByVendor(w);
    GroupByVendorSpec(w);
    forall g | g in groups ensures g.net == g.credit - g.debit {
      var i :| 0 <= i < |groups| && groups[i] == g;
      OnlyMembers(w, g.vendor);
      TotalBalanced(Only(w, g.vendor));
    }
  }
}
