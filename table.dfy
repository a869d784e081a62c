/** The transaction frame and the column assignments the script makes on it
    (main.py lines 19-22 and 38): missing amounts become 0, a `Net` column is
    added as credit minus debit, and a `Vendor` column holds the label of each
    row's company text. Dates are day numbers and amounts are integers (cents);
    a missing amount (pandas' NaN) is `None`. */
module Table {
  import opened Wrappers
  import opened Vendor

  /** A row as loaded, before any column assignment. */
  datatype RawRow = RawRow(date: int, company: string, credit: Option<int>, debit: Option<int>)

  /** A row once every column assignment has run. */
  datatype Row = Row(date: int, company: string, credit: int, debit: int, net: int, vendor: string)

  /** `col.fillna(0)`. */
  function FillNa(col: seq<Option<int>>): (r: seq<Option<int>>)
    ensures |r| == |col|
    ensures forall i :: 0 <= i < |r| ==> r[i].Some?
    ensures forall i :: 0 <= i < |r| ==> (col[i].Some? ==> r[i] == col[i]) && (col[i].None? ==> r[i] == Some(0))
  {
    seq(|col|, i requires 0 <= i < |col| => Some(col[i].GetOr(0)))
  }

  /** `credit - debit` on two columns: element by element, and missing where
      either operand is missing. */
  function Minus(credit: seq<Option<int>>, debit: seq<Option<int>>): (r: seq<Option<int>>)
    requires |credit| == |debit|
    ensures |r| == |credit|
    ensures forall i :: 0 <= i < |r| ==> (r[i].Some? <==> credit[i].Some? && debit[i].Some?)
    ensures forall i :: 0 <= i < |r| && r[i].Some? ==> r[i].value == credit[i].value - debit[i].value
  {
    seq(|credit|, i requires 0 <= i < |credit| =>
      if credit[i].Some? && debit[i].Some? then Some(credit[i].value - debit[i].value) else None)
  }

  /** `Series.apply(f)` on a column of strings: `f` on every element, in
      order. */
  function Apply(column: seq<string>, f: string -> string): (r: seq<string>)
    ensures |r| == |column|
    ensures forall i :: 0 <= i < |r| ==> r[i] == f(column[i])
  {
    seq(|column|, i requires 0 <= i < |column| => f(column[i]))
  }

  /** Applying to one more element appends its image. */
  lemma ApplySnoc(column: seq<string>, f: string -> string, i: nat)
    requires i < |column|
    ensures Apply(column[..i + 1], f) == Apply(column[..i], f) + [f(column[i])]
  {
    var a := Apply(column[..i + 1], f);
    var b := Apply(column[..i], f) + [f(column[i])];
    forall j | 0 <= j < |a| ensures a[j] == b[j] {
      assert column[..i + 1][j] == column[j];
      if j < i {
        assert column[..i][j] == column[j];
      }
    }
  }

  /** `df["Company"].apply(extract_vendor)`. */
  function Labels(company: seq<string>): (r: seq<string>)
    ensures |r| == |company|
    ensures forall i :: 0 <= i < |r| ==> r[i] == VendorLabel(company[i])
  {
    Apply(company, VendorLabel)
  }

  /** What the script makes of one loaded row. */
  function Normalize(raw: RawRow): (r: Row)
    ensures r.date == raw.date && r.company == raw.company
    ensures r.net == r.credit - r.debit
  {
    var credit := raw.credit.GetOr(0);
    var debit := raw.debit.GetOr(0);
    Row(raw.date, raw.company, credit, debit, credit - debit, VendorLabel(raw.company))
  }

  function Normalized(raw: seq<RawRow>): (rows: seq<Row>)
    ensures |rows| == |raw|
    ensures forall i :: 0 <= i < |rows| ==> rows[i] == Normalize(raw[i])
  {
    seq(|raw|, i requires 0 <= i < |raw| => Normalize(raw[i]))
  }

  /** Every normalised row keeps its date and company, takes a missing
      amount as 0, and has net equal to credit minus debit. */
  lemma NormalizedRows(raw: seq<RawRow>)
    ensures forall i :: 0 <= i < |raw| ==>
      var r := Normalized(raw)[i];
      r.date == raw[i].date && r.company == raw[i].company &&
      (raw[i].credit.Some? ==> r.credit == raw[i].credit.value) && (raw[i].credit.None? ==> r.credit == 0) &&
      (raw[i].debit.Some? ==> r.debit == raw[i].debit.value) && (raw[i].debit.None? ==> r.debit == 0) &&
      r.net == r.credit - r.debit &&
      r.vendor == VendorLabel(r.company)
  {
  }

  /** The rows of a frame whose every amount is present, from its columns. */
  function Assemble(date: seq<int>, company: seq<string>, credit: seq<Option<int>>,
                    debit: seq<Option<int>>, net: seq<Option<int>>, vendor: seq<string>): (rows: seq<Row>)
    requires |company| == |credit| == |debit| == |net| == |vendor| == |date|
    requires forall i :: 0 <= i < |date| ==> credit[i].Some? && debit[i].Some? && net[i].Some?
    ensures |rows| == |date|
  {
    seq(|date|, i requires 0 <= i < |date| =>
      Row(date[i], company[i], credit[i].value, debit[i].value, net[i].value, vendor[i]))
  }

  /** The column assignments, done on the loaded columns, give the
      normalised rows. */
  lemma AssembleNormalized(raw: seq<RawRow>, date: seq<int>, company: seq<string>,
                           credit: seq<Option<int>>, debit: seq<Option<int>>)
    requires |company| == |credit| == |debit| == |date| == |raw|
    requires forall i :: 0 <= i < |raw| ==> raw[i] == RawRow(date[i], company[i], credit[i], debit[i])
    ensures var c, d := FillNa(credit), FillNa(debit);
      var net := Minus(c, d);
      (forall i :: 0 <= i < |raw| ==> net[i].Some?) &&
      Assemble(date, company, c, d, net, Labels(company)) == Normalized(raw)
  {
    var c, d := FillNa(credit), FillNa(debit);
    var net := Minus(c, d);
    var vendor := Labels(company);
    var rows := Assemble(date, company, c, d, net, vendor);
    forall i | 0 <= i < |raw| ensures rows[i] == Normalize(raw[i]) {
      assert c[i].value == raw[i].credit.GetOr(0);
      assert d[i].value == raw[i].debit.GetOr(0);
      assert net[i].value == c[i].value - d[i].value;
      assert vendor[i] == VendorLabel(raw[i].company);
    }
  }

  /** `fillna(0)` on one column, in place. */
  method FillNaInPlace(a: array<Option<int>>)
    modifies a
    ensures a[..] == FillNa(old(a[..]))
  {
    ghost var col := a[..];
    for i := 0 to a.Length
      invariant a[..i] == FillNa(col)[..i]
      invariant a[i..] == col[i..]
    {
      a[i] := Some(a[i].GetOr(0));
      assert a[i + 1..] == col[i + 1..];
    }
  }

  /** `Series.apply(extract_vendor)`: the labels of a column, in order. */
  method LabelAll(company: seq<string>) returns (labels: seq<string>)
    ensures labels == Labels(company)
  {
    labels := [];
    for i := 0 to |company|
      invariant labels == Labels(company[..i])
    {
      var v := ExtractVendor(company[i]);
      ApplySnoc(company, VendorLabel, i);
      labels := labels + [v];
    }
    assert company[..|company|] == company;
  }

  /** The DataFrame: one array per column, all of the same length. */
  class Frame {
    const size: nat
    const date: array<int>
    const company: array<string>
    const credit: array<Option<int>>
    const debit: array<Option<int>>
    /** The `Net` column; missing everywhere until it is computed. */
    var net: array<Option<int>>
    /** The `Vendor` column; empty labels until it is computed. */
    var vendor: array<string>

    ghost predicate Valid()
      reads this
    {
      date.Length == size && company.Length == size &&
      credit.Length == size && debit.Length == size &&
      net.Length == size && vendor.Length == size &&
      credit != debit && net != credit && net != debit && vendor != company
    }

    /** The loaded columns, row by row. */
    function Loaded(): (raw: seq<RawRow>)
      requires Valid()
      reads this, date, company, credit, debit
      ensures |raw| == size
    {
      seq(size, i requires 0 <= i < size && Valid() reads this, date, company, credit, debit =>
        RawRow(date[i], company[i], credit[i], debit[i]))
    }

    /** `pd.read_csv`: the frame holds the given rows in file order. */
    constructor (raw: seq<RawRow>)
      ensures Valid() && Loaded() == raw
      ensures forall i :: 0 <= i < size ==> net[i].None? && vendor[i] == ""
      ensures fresh(date) && fresh(company) && fresh(credit) && fresh(debit) && fresh(net) && fresh(vendor)
    {
      size := |raw|;
      date := new int[|raw|](i requires 0 <= i < |raw| => raw[i].date);
      company := new string[|raw|](i requires 0 <= i < |raw| => raw[i].company);
      credit := new Option<int>[|raw|](i requires 0 <= i < |raw| => raw[i].credit);
      debit := new Option<int>[|raw|](i requires 0 <= i < |raw| => raw[i].debit);
      net := new Option<int>[|raw|](_ => None);
      vendor := new string[|raw|](_ => "");
    }

    /** `df["Credit"] = df["Credit"].fillna(0)` and the same for `Debit`. */
    method FillMissing()
      requires Valid()
      modifies credit, debit
      ensures Valid()
      ensures credit[..] == FillNa(old(credit[..])) && debit[..] == FillNa(old(debit[..]))
    {
      FillNaInPlace(credit);
      FillNaInPlace(debit);
    }

    /** `df["Net"] = df["Credit"] - df["Debit"]`: a new column. */
    method ComputeNet()
      requires Valid()
      modifies this
      ensures Valid() && fresh(net) && vendor == old(vendor)
      ensures net[..] == Minus(credit[..], debit[..])
    {
      var column := new Option<int>[size];
      for i := 0 to size
        modifies column
        invariant column[..i] == Minus(credit[..], debit[..])[..i]
      {
        column[i] := if credit[i].Some? && debit[i].Some? then Some(credit[i].value - debit[i].value) else None;
      }
      net := column;
    }

    /** `df["Vendor"] = df["Company"].apply(extract_vendor)`: a new column. */
    method ComputeVendor()
      requires Valid()
      modifies this
      ensures Valid() && fresh(vendor) && net == old(net)
      ensures vendor[..] == Labels(company[..])
    {
      var labels := LabelAll(company[..]);
      vendor := new string[size](i requires 0 <= i < size => labels[i]);
    }

    /** Every amount, the net included, is present. */
    ghost predicate Complete()
      reads this, credit, debit, net
    {
      Valid() &&
      forall i :: 0 <= i < size ==> credit[i].Some? && debit[i].Some? && net[i].Some?
    }

    /** The frame's rows once every amount is present. */
    function Rows(): (rows: seq<Row>)
      requires Complete()
      reads this, date, company, credit, debit, net, vendor
      ensures |rows| == size
    {
      Assemble(date[..], company[..], credit[..], debit[..], net[..], vendor[..])
    }
  }

  /** The script from loading to the `Vendor` column (main.py lines 11-38,
      the user interface left aside): the frame's rows are the normalised
      loaded rows. */
  method Prepare(raw: seq<RawRow>) returns (f: Frame)
    ensures f.Complete() && f.Rows() == Normalized(raw)
  {
    f := new Frame(raw);
    forall i | 0 <= i < |raw|
      ensures raw[i] == RawRow(f.date[..][i], f.company[..][i], f.credit[..][i], f.debit[..][i])
    {
      assert f.Loaded()[i] == raw[i];
    }
    AssembleNormalized(raw, f.date[..], f.company[..], f.credit[..], f.debit[..]);
    f.FillMissing();
    f.ComputeNet();
    f.ComputeVendor();
  }
}
