/** `net_by_vendor` (main.py lines 40-41): the net column of every row
    grouped by vendor, then `sort_values(by="Net", ascending=False)`. The
    order among equal nets is not part of what the sort promises, so the
    contracts here fix none. */
module Ranking {
  import opened Table
  import opened Summary
  import opened Groups
  import opened StrOrder

  /** A row of `df.groupby("Vendor")["Net"].sum().reset_index()`. */
  datatype VendorNet = VendorNet(vendor: string, net: int)

  /** The `Net` column of a grouped frame, with its keys, in key order. */
  function NetColumn(groups: seq<VendorTotal>): (col: seq<VendorNet>)
    ensures |col| == |groups|
    ensures forall i :: 0 <= i < |col| ==> col[i].vendor == groups[i].vendor && col[i].net == groups[i].net
  {
    seq(|groups|, i requires 0 <= i < |groups| => VendorNet(groups[i].vendor, groups[i].net))
  }

  /** Largest net first. */
  predicate Descending(xs: seq<VendorNet>) {
    forall i, j :: 0 <= i < j < |xs| ==> xs[i].net >= xs[j].net
  }

  /** `x` put in front of the first entry whose net does not exceed its own. */
  function Insert(x: VendorNet, xs: seq<VendorNet>): (ys: seq<VendorNet>)
    ensures multiset(ys) == multiset(xs) + multiset{x}
    decreases |xs|
  {
    if |xs| == 0 || x.net >= xs[0].net then [x] + xs
    else
      assert xs == [xs[0]] + xs[1..];
      [xs[0]] + Insert(x, xs[1..])
  }

  /** A head no smaller than anything after it keeps the order. */
  lemma ConsDescending(h: VendorNet, xs: seq<VendorNet>)
    requires Descending(xs) && forall y :: y in xs ==> y.net <= h.net
    ensures Descending([h] + xs)
  {
    var ys := [h] + xs;
    forall i, j | 0 <= i < j < |ys| ensures ys[i].net >= ys[j].net {
      assert ys[j] == xs[j - 1];
      if i == 0 {
        assert xs[j - 1] in xs;
      } else {
        assert ys[i] == xs[i - 1];
      }
    }
  }

  /** Inserting adds one entry and no other. */
  lemma InsertBound(x: VendorNet, xs: seq<VendorNet>, bound: int)
    requires x.net <= bound && forall y :: y in xs ==> y.net <= bound
    ensures forall y :: y in Insert(x, xs) ==> y.net <= bound
  {
    var ys := Insert(x, xs);
    forall y | y in ys ensures y.net <= bound {
      assert y in multiset(ys);
      assert y == x || y in multiset(xs);
    }
  }

  lemma {:induction false} InsertDescending(x: VendorNet, xs: seq<VendorNet>)
    requires Descending(xs)
    ensures Descending(Insert(x, xs))
    decreases |xs|
  {
    if |xs| == 0 || x.net >= xs[0].net {
      forall y | y in xs ensures y.net <= x.net {
        var k :| 0 <= k < |xs| && xs[k] == y;
      }
      ConsDescending(x, xs);
    } else {
      var tail := xs[1..];
      InsertDescending(x, tail);
      forall y | y in tail ensures y.net <= xs[0].net {
        var k :| 0 <= k < |tail| && tail[k] == y;
        assert xs[k + 1] == y;
      }
      InsertBound(x, tail, xs[0].net);
      ConsDescending(xs[0], Insert(x, tail));
    }
  }

  /** `sort_values(by="Net", ascending=False)`. */
  function SortByNet(xs: seq<VendorNet>): (ys: seq<VendorNet>)
    ensures multiset(ys) == multiset(xs)
    ensures Descending(ys)
    decreases |xs|
  {
    if |xs| == 0 then []
    else
      assert xs == [xs[0]] + xs[1..];
      InsertDescending(xs[0], SortByNet(xs[1..]));
      Insert(xs[0], SortByNet(xs[1..]))
  }

  /** `net_by_vendor`: the grouped net column, largest net first. */
  function NetByVendor(rows: seq<Row>): (ranked: seq<VendorNet>)
    ensures Descending(ranked)
    ensures multiset(ranked) == multiset(NetColumn(GroupByVendor(rows)))
  {
    SortByNet(NetColumn(GroupByVendor(rows)))
  }

  /** Two equal entries at two positions count twice. */
  lemma Repeated(xs: seq<VendorNet>, i: nat, j: nat)
    requires i < j < |xs| && xs[i] == xs[j]
    ensures multiset(xs)[xs[i]] >= 2
  {
    assert xs == xs[..j] + [xs[j]] + xs[j + 1..];
    assert xs[..j][i] == xs[i];
  }

  /** Entries that differ pairwise each occur once. */
  lemma {:induction false} Once(xs: seq<VendorNet>)
    requires forall i, j :: 0 <= i < j < |xs| ==> xs[i] != xs[j]
    ensures forall x :: multiset(xs)[x] <= 1
    decreases |xs|
  {
    if |xs| > 0 {
      Once(xs[1..]);
      assert xs == [xs[0]] + xs[1..];
      assert xs[0] !in xs[1..];
    }
  }

  /** The entries of the net column are those of the grouped frame. */
  lemma ColumnEntries(rows: seq<Row>)
    ensures var col := NetColumn(GroupByVendor(rows));
      (forall y :: y in col ==> y.vendor in Vendors(rows) && y.net == Total(Only(rows, y.vendor), Net)) &&
      (forall v :: v in Vendors(rows) ==> VendorNet(v, Total(Only(rows, v), Net)) in col) &&
      (forall x :: multiset(col)[x] <= 1)
  {
    var groups := GroupByVendor(rows);
    var col := NetColumn(groups);
    GroupByVendorSpec(rows);
    forall y | y in col ensures y.vendor in Vendors(rows) && y.net == Total(Only(rows, y.vendor), Net) {
      var i :| 0 <= i < |col| && col[i] == y;
      assert groups[i] in groups;
    }
    forall v | v in Vendors(rows) ensures VendorNet(v, Total(Only(rows, v), Net)) in col {
      assert v in Keys(groups);
      var g :| g in groups && g.vendor == v;
      var i :| 0 <= i < |groups| && groups[i] == g;
      assert col[i] == VendorNet(v, Total(Only(rows, v), Net));
    }
    forall i, j | 0 <= i < j < |col| ensures col[i] != col[j] {
      BelowIrreflexive(groups[i].vendor);
    }
    Once(col);
  }

  /** A reordering keeps the entries it reorders. */
  lemma SameEntries(xs: seq<VendorNet>, ys: seq<VendorNet>)
    requires multiset(xs) == multiset(ys)
    ensures forall y :: y in xs <==> y in ys
  {
    forall y ensures y in xs <==> y in ys {
      assert y in xs <==> y in multiset(xs);
      assert y in ys <==> y in multiset(ys);
    }
  }

  /** `net_by_vendor` lists every vendor of the frame once, with the net sum
      of that vendor's rows, largest net first; it is a reordering of the
      grouped frame. */
  lemma NetByVendorSpec(rows: seq<Row>)
    ensures var ranked := NetByVendor(rows);
      Descending(ranked) &&
      multiset(ranked) == multiset(NetColumn(GroupByVendor(rows))) &&
      (forall y :: y in ranked ==> y.vendor in Vendors(rows) && y.net == Total(Only(rows, y.vendor), Net)) &&
      (forall v :: v in Vendors(rows) ==> VendorNet(v, Total(Only(rows, v), Net)) in ranked) &&
      (forall i, j :: 0 <= i < j < |ranked| ==> ranked[i].vendor != ranked[j].vendor)
  {
    var col := NetColumn(GroupByVendor(rows));
    var ranked := NetByVendor(rows);
    ColumnEntries(rows);
    SameEntries(col, ranked);
    forall i, j | 0 <= i < j < |ranked| ensures ranked[i].vendor != ranked[j].vendor {
      if ranked[i].vendor == ranked[j].vendor {
        assert ranked[i] in ranked && ranked[j] in ranked;
        Repeated(ranked, i, j);
        assert false;
      }
    }
  }
}
