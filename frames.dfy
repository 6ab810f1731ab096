/**
 * The cleaning phase of the dashboard script: the table read from the
 * semicolon-separated price file loses its always-empty purchase-price
 * column, its sale-price column is turned from comma-decimal text into
 * numbers, and two header labels are shortened.
 */
module Frames {
  import opened Wrappers
  import opened Text
  import opened Decimals

  /** One cell of the table: text, a number, or an empty field (NaN). */
  datatype Cell = Str(s: string) | Num(x: real) | Missing

  /** A table as pandas holds it: column labels and rows of cells. */
  datatype Table = Table(columns: seq<string>, rows: seq<seq<Cell>>)

  predicate WellFormed(t: Table)
  {
    forall k :: 0 <= k < |t.rows| ==> |t.rows[k]| == |t.columns|
  }

  datatype CleanError =
    | MissingColumn(name: string)   // KeyError from drop or column access
    | NotText                       // the cell has no `replace`: it is not a string
    | NotNumeric(text: string)      // `float` rejects the text after the replacement

  const PurchasePrice: string := "Valor de Compra"
  const SalePrice: string := "Valor de Venda"
  const Renames: map<string, string> := map["Regiao - Sigla" := "Regiao", "Estado - Sigla" := "Estado"]

  // ---------------------------------------------------------------------
  // Column access by label.

  /** Position of the first column labelled `name`, or `|columns|`. */
  function IndexOf(columns: seq<string>, name: string): (k: nat)
    ensures k <= |columns|
    ensures k < |columns| ==> columns[k] == name
    ensures forall i :: 0 <= i < k ==> columns[i] != name
  {
    if columns == [] then 0 else if columns[0] == name then 0 else 1 + IndexOf(columns[1..], name)
  }

  /** The cell of `row` under the first label `name`, as `row[name]` reads it. */
  function Lookup(columns: seq<string>, row: seq<Cell>, name: string): (r: Option<Cell>)
    requires |row| == |columns|
    ensures r.None? <==> name !in columns
  {
    if columns == [] then None
    else if columns[0] == name then Some(row[0])
    else Lookup(columns[1..], row[1..], name)
  }

  /** Lookup reads the cell at the position IndexOf finds. */
  lemma {:induction false} LookupAt(columns: seq<string>, row: seq<Cell>, name: string)
    requires |row| == |columns| && name in columns
    ensures IndexOf(columns, name) < |columns|
    ensures Lookup(columns, row, name) == Some(row[IndexOf(columns, name)])
  {
    if columns[0] != name {
      LookupAt(columns[1..], row[1..], name);
    }
  }

  // ---------------------------------------------------------------------
  // df.drop(name, axis=1): every column with that label disappears.

  /** The labels that remain after dropping `name`, in order. */
  function Kept(columns: seq<string>, name: string): (r: seq<string>)
    ensures name !in r
    ensures forall c :: c in r <==> c in columns && c != name
  {
    if columns == [] then []
    else (if columns[0] == name then [] else [columns[0]]) + Kept(columns[1..], name)
  }

  /** The cells of one row that sit under a kept label. */
  function DropFrom<T>(columns: seq<string>, xs: seq<T>, name: string): (r: seq<T>)
    requires |xs| == |columns|
    ensures |r| == |Kept(columns, name)|
  {
    if columns == [] then []
    else (if columns[0] == name then [] else [xs[0]]) + DropFrom(columns[1..], xs[1..], name)
  }

  function DropColumn(t: Table, name: string): (r: Result<Table, CleanError>)
    requires WellFormed(t)
    ensures r.Err? <==> name !in t.columns
    ensures r.Err? ==> r.error == MissingColumn(name)
    ensures r.Ok? ==> WellFormed(r.value) && name !in r.value.columns
    ensures r.Ok? ==> |r.value.rows| == |t.rows|
  {
    if name !in t.columns then Err(MissingColumn(name))
    else
      Ok(Table(Kept(t.columns, name),
               seq(|t.rows|, k requires 0 <= k < |t.rows| => DropFrom(t.columns, t.rows[k], name))))
  }

  /** After the drop every other label still reads the same cell. */
  lemma {:induction false} DropLookup(columns: seq<string>, row: seq<Cell>, name: string, c: string)
    requires |row| == |columns| && c != name
    ensures Lookup(Kept(columns, name), DropFrom(columns, row, name), c) == Lookup(columns, row, c)
  {
    if columns != [] {
      DropLookup(columns[1..], row[1..], name, c);
      var kept := Kept(columns, name);
      var cells := DropFrom(columns, row, name);
      if columns[0] == name {
        assert kept == Kept(columns[1..], name) && cells == DropFrom(columns[1..], row[1..], name);
      } else {
        assert kept == [columns[0]] + Kept(columns[1..], name);
        assert cells == [row[0]] + DropFrom(columns[1..], row[1..], name);
        assert kept[1..] == Kept(columns[1..], name) && cells[1..] == DropFrom(columns[1..], row[1..], name);
      }
    }
  }

  /** The drop works piece by piece, so what remains keeps its order. */
  lemma {:induction false} KeptAppend(a: seq<string>, b: seq<string>, name: string)
    ensures Kept(a + b, name) == Kept(a, name) + Kept(b, name)
  {
    if a == [] {
      assert a + b == b;
    } else {
      var head: seq<string> := if a[0] == name then [] else [a[0]];
      assert (a + b)[0] == a[0] && (a + b)[1..] == a[1..] + b;
      assert Kept(a + b, name) == head + Kept(a[1..] + b, name);
      KeptAppend(a[1..], b, name);
      assert Kept(a, name) == head + Kept(a[1..], name);
    }
  }

  lemma {:induction false} DropFromAppend<T>(a: seq<string>, b: seq<string>, xs: seq<T>, ys: seq<T>, name: string)
    requires |xs| == |a| && |ys| == |b|
    ensures DropFrom(a + b, xs + ys, name) == DropFrom(a, xs, name) + DropFrom(b, ys, name)
  {
    if a == [] {
      assert a + b == b && xs + ys == ys;
    } else {
      var head: seq<T> := if a[0] == name then [] else [xs[0]];
      var rest := DropFrom(a[1..], xs[1..], name);
      assert DropFrom(a + b, xs + ys, name) == head + DropFrom(a[1..] + b, xs[1..] + ys, name) by {
        assert (a + b)[0] == a[0] && (a + b)[1..] == a[1..] + b;
        assert (xs + ys)[0] == xs[0] && (xs + ys)[1..] == xs[1..] + ys;
      }
      DropFromAppend(a[1..], b, xs[1..], ys, name);
      assert head + (rest + DropFrom(b, ys, name)) == (head + rest) + DropFrom(b, ys, name);
    }
  }

  // ---------------------------------------------------------------------
  // df[SalePrice] = df[SalePrice].apply(lambda x: float(x.replace(',', '.')))

  /** What the lambda makes of one cell. */
  function SalePriceOf(c: Cell): (r: Result<real, CleanError>)
    ensures r.Ok? <==> c.Str? && IsLiteral(ReplaceChar(c.s, ',', '.'))
    ensures r.Ok? ==> Parse(ReplaceChar(c.s, ',', '.')).Some? && r.value == Parse(ReplaceChar(c.s, ',', '.')).value.Value()
    ensures !c.Str? ==> r == Err(NotText)
    ensures c.Str? && r.Err? ==> r == Err(NotNumeric(ReplaceChar(c.s, ',', '.')))
  {
    match c
    case Str(s) =>
      var dotted := ReplaceChar(s, ',', '.');
      ParseAcceptsLiterals(dotted);
      (match Parse(dotted)
       case None => Err(NotNumeric(dotted))
       case Some(d) => Ok(d.Value()))
    case _ => Err(NotText)
  }

  /** A price cell written in the comma notation converts to exactly the decimal it shows. */
  lemma SalePriceFormat(d: Decimal)
    ensures SalePriceOf(Str(Format(d, ','))) == Ok(d.Value())
  {
    CommaFormatParse(d);
  }

  predicate HasColumn(rows: seq<seq<Cell>>, j: nat)
  {
    forall k :: 0 <= k < |rows| ==> j < |rows[k]|
  }

  /** Row `row` with its cell `j` replaced by the number `f` makes of it. */
  function Converted(row: seq<Cell>, j: nat, f: Cell -> Result<real, CleanError>): seq<Cell>
    requires j < |row| && f(row[j]).Ok?
  {
    row[j := Num(f(row[j]).value)]
  }

  /**
   * `Series.apply(f)` over column `j`, row by row in order: the first cell
   * that `f` rejects raises, otherwise every cell of the column is replaced
   * by what `f` makes of it.
   */
  function ApplyColumn(rows: seq<seq<Cell>>, j: nat, f: Cell -> Result<real, CleanError>): (r: Result<seq<seq<Cell>>, CleanError>)
    requires HasColumn(rows, j)
    ensures r.Ok? <==> forall k :: 0 <= k < |rows| ==> f(rows[k][j]).Ok?
    ensures r.Ok? ==> |r.value| == |rows| &&
                      forall k :: 0 <= k < |rows| ==> r.value[k] == Converted(rows[k], j, f)
    ensures r.Err? ==> exists k :: 0 <= k < |rows| && f(rows[k][j]) == Err(r.error) &&
                                   forall i :: 0 <= i < k ==> f(rows[i][j]).Ok?
  {
    if rows == [] then Ok([])
    else
      var n := |rows| - 1;
      assert forall k :: 0 <= k < n ==> rows[..n][k] == rows[k];
      match ApplyColumn(rows[..n], j, f)
      case Err(e) => Err(e)
      case Ok(done) =>
        match f(rows[n][j])
        case Err(e) => Err(e)
        case Ok(v) => Ok(done + [Converted(rows[n], j, f)])
  }

  /** One more row of `apply`: the prefix result extended by that row's outcome. */
  lemma ApplyStep(rows: seq<seq<Cell>>, j: nat, f: Cell -> Result<real, CleanError>, i: nat, out: seq<seq<Cell>>)
    requires HasColumn(rows, j) && i < |rows|
    requires ApplyColumn(rows[..i], j, f) == Ok(out)
    ensures ApplyColumn(rows[..i + 1], j, f) ==
            match f(rows[i][j])
            case Err(e) => Err(e)
            case Ok(v) => Ok(out + [rows[i][j := Num(v)]])
  {
    assert rows[..i + 1][..i] == rows[..i];
  }

  /** The first row that `f` rejects decides the error of the whole `apply`. */
  lemma ApplyFirstFailure(rows: seq<seq<Cell>>, j: nat, f: Cell -> Result<real, CleanError>, i: nat)
    requires HasColumn(rows, j) && i < |rows|
    requires ApplyColumn(rows[..i], j, f).Ok? && f(rows[i][j]).Err?
    ensures ApplyColumn(rows, j, f) == Err(f(rows[i][j]).error)
  {
    assert forall k :: 0 <= k < i ==> rows[..i][k] == rows[k];
    var r := ApplyColumn(rows, j, f);
    var k :| 0 <= k < |rows| && f(rows[k][j]) == Err(r.error) && forall m :: 0 <= m < k ==> f(rows[m][j]).Ok?;
    assert k == i;
  }

  /** `df[name] = df[name].apply(f)`: a KeyError when the label is absent. */
  function ApplyTo(t: Table, name: string, f: Cell -> Result<real, CleanError>): (r: Result<Table, CleanError>)
    requires WellFormed(t)
    ensures name !in t.columns ==> r == Err(MissingColumn(name))
    ensures r.Ok? ==> WellFormed(r.value) && r.value.columns == t.columns && |r.value.rows| == |t.rows|
  {
    var j := IndexOf(t.columns, name);
    if j == |t.columns| then Err(MissingColumn(name))
    else
      match ApplyColumn(t.rows, j, f)
      case Err(e) => Err(e)
      case Ok(rows) => Ok(Table(t.columns, rows))
  }

  /**
   * After the assignment the label reads the number `f` made of its old
   * cell, and every other label reads what it read before.
   */
  lemma ApplyLookup(t: Table, name: string, f: Cell -> Result<real, CleanError>, k: nat, c: string)
    requires WellFormed(t) && ApplyTo(t, name, f).Ok? && k < |t.rows|
    ensures Lookup(t.columns, t.rows[k], name).Some?
    ensures f(Lookup(t.columns, t.rows[k], name).value).Ok?
    ensures Lookup(t.columns, ApplyTo(t, name, f).value.rows[k], name) ==
            Some(Num(f(Lookup(t.columns, t.rows[k], name).value).value))
    ensures c != name ==> Lookup(t.columns, ApplyTo(t, name, f).value.rows[k], c) == Lookup(t.columns, t.rows[k], c)
  {
    var j := IndexOf(t.columns, name);
    var rows := ApplyColumn(t.rows, j, f).value;
    assert ApplyTo(t, name, f).value.rows == rows;
    assert rows[k] == Converted(t.rows[k], j, f);
    LookupAt(t.columns, t.rows[k], name);
    LookupAt(t.columns, rows[k], name);
    if c != name && c in t.columns {
      LookupAt(t.columns, t.rows[k], c);
      LookupAt(t.columns, rows[k], c);
      assert IndexOf(t.columns, c) != j;
    }
  }

  /**
   * The assignment fails exactly when `f` rejects some row's cell, and then
   * with the error of the first such row.
   */
  lemma ApplyFails(t: Table, name: string, f: Cell -> Result<real, CleanError>)
    requires WellFormed(t) && name in t.columns
    ensures ApplyTo(t, name, f).Err? <==>
            exists k :: 0 <= k < |t.rows| && f(Lookup(t.columns, t.rows[k], name).value).Err?
    ensures ApplyTo(t, name, f).Err? ==>
            exists k :: && 0 <= k < |t.rows|
                        && f(Lookup(t.columns, t.rows[k], name).value) == Err(ApplyTo(t, name, f).error)
                        && forall i :: 0 <= i < k ==> f(Lookup(t.columns, t.rows[i], name).value).Ok?
  {
    var j := IndexOf(t.columns, name);
    forall k | 0 <= k < |t.rows|
      ensures Lookup(t.columns, t.rows[k], name) == Some(t.rows[k][j])
    {
      LookupAt(t.columns, t.rows[k], name);
    }
  }

  // ---------------------------------------------------------------------
  // df.rename(columns=Renames): labels map through the dictionary, others stay.

  function RenameLabel(c: string, m: map<string, string>): string
  {
    if c in m then m[c] else c
  }

  function RenameColumns(columns: seq<string>, m: map<string, string>): (r: seq<string>)
    ensures |r| == |columns|
    ensures forall i :: 0 <= i < |columns| ==> r[i] == RenameLabel(columns[i], m)
  {
    if columns == [] then [] else [RenameLabel(columns[0], m)] + RenameColumns(columns[1..], m)
  }

  function Rename(t: Table, m: map<string, string>): (r: Table)
    requires WellFormed(t)
    ensures WellFormed(r) && r.rows == t.rows && |r.columns| == |t.columns|
  {
    Table(RenameColumns(t.columns, m), t.rows)
  }

  /** Renaming introduces no label that is neither present nor a new name. */
  lemma RenameAvoids(columns: seq<string>, m: map<string, string>, c: string)
    requires c !in columns && forall k :: k in m ==> m[k] != c
    ensures c !in RenameColumns(columns, m)
  {
    var cs := RenameColumns(columns, m);
    forall i | 0 <= i < |cs| ensures cs[i] != c {
      assert columns[i] in columns;
    }
  }

  /** A label that the dictionary neither renames nor produces reads the same cell. */
  lemma {:induction false} RenameLookupOther(columns: seq<string>, row: seq<Cell>, m: map<string, string>, c: string)
    requires |row| == |columns|
    requires c !in m && forall k :: k in m ==> m[k] != c
    ensures Lookup(RenameColumns(columns, m), row, c) == Lookup(columns, row, c)
  {
    if columns != [] {
      RenameLookupOther(columns[1..], row[1..], m, c);
    }
  }

  /**
   * A renamed label reads the cell of its old label, provided the new label
   * was not in use and no other old label is renamed to it.
   */
  lemma {:induction false} RenameLookupRenamed(columns: seq<string>, row: seq<Cell>, m: map<string, string>, oldLabel: string)
    requires |row| == |columns| && oldLabel in m && m[oldLabel] !in columns
    requires forall k :: k in m && k != oldLabel ==> m[k] != m[oldLabel]
    ensures Lookup(RenameColumns(columns, m), row, m[oldLabel]) == Lookup(columns, row, oldLabel)
  {
    if columns != [] {
      RenameLookupRenamed(columns[1..], row[1..], m, oldLabel);
    }
  }

  // ---------------------------------------------------------------------
  // The three steps in the order of the script.

  /**
   * Lines 10, 13 and 16 of the script in order, each stopping at its first
   * error. `convert` is the lambda applied to the sale-price cells; the
   * script's own is `SalePriceOf`.
   */
  function CleanSpec(t: Table, convert: Cell -> Result<real, CleanError>): (r: Result<Table, CleanError>)
    requires WellFormed(t)
    ensures r.Ok? ==> WellFormed(r.value) && |r.value.rows| == |t.rows|
  {
    match DropColumn(t, PurchasePrice)
    case Err(e) => Err(e)
    case Ok(t1) =>
      match ApplyTo(t1, SalePrice, convert)
      case Err(e) => Err(e)
      case Ok(t2) => Ok(Rename(t2, Renames))
  }

  /** A successful clean went through each of the three steps. */
  lemma CleanSteps(t: Table, convert: Cell -> Result<real, CleanError>) returns (t1: Table, t2: Table)
    requires WellFormed(t) && CleanSpec(t, convert).Ok?
    ensures DropColumn(t, PurchasePrice) == Ok(t1)
    ensures WellFormed(t1) && ApplyTo(t1, SalePrice, convert) == Ok(t2)
    ensures WellFormed(t2) && CleanSpec(t, convert).value == Rename(t2, Renames)
  {
    t1 := DropColumn(t, PurchasePrice).value;
    t2 := ApplyTo(t1, SalePrice, convert).value;
  }

  /** The cleaned table has no purchase-price column. */
  lemma CleanDropsPurchasePrice(t: Table, convert: Cell -> Result<real, CleanError>)
    requires WellFormed(t) && CleanSpec(t, convert).Ok?
    ensures PurchasePrice !in CleanSpec(t, convert).value.columns
  {
    var t1, t2 := CleanSteps(t, convert);
    assert PurchasePrice !in t2.columns;
    assert forall k :: k in Renames ==> Renames[k] != PurchasePrice;
    RenameAvoids(t2.columns, Renames, PurchasePrice);
  }

  /**
   * In the cleaned table the sale-price label reads the number that
   * `convert` makes of the raw row's cell; with `SalePriceOf`, the value of
   * its comma-decimal text.
   */
  lemma CleanSalePrice(t: Table, convert: Cell -> Result<real, CleanError>, k: nat)
    requires WellFormed(t) && CleanSpec(t, convert).Ok? && k < |t.rows|
    ensures Lookup(t.columns, t.rows[k], SalePrice).Some?
    ensures convert(Lookup(t.columns, t.rows[k], SalePrice).value).Ok?
    ensures Lookup(CleanSpec(t, convert).value.columns, CleanSpec(t, convert).value.rows[k], SalePrice) ==
            Some(Num(convert(Lookup(t.columns, t.rows[k], SalePrice).value).value))
  {
    var t1, t2 := CleanSteps(t, convert);
    assert t1.rows[k] == DropFrom(t.columns, t.rows[k], PurchasePrice);
    DropLookup(t.columns, t.rows[k], PurchasePrice, SalePrice);
    ApplyLookup(t1, SalePrice, convert, k, SalePrice);
    RenameLookupOther(t2.columns, t2.rows[k], Renames, SalePrice);
  }

  /**
   * In the cleaned table "Estado" and "Regiao" read what the long labels
   * read in the raw file, provided the raw file did not use the short ones.
   */
  lemma CleanRenamed(t: Table, convert: Cell -> Result<real, CleanError>, k: nat)
    requires WellFormed(t) && CleanSpec(t, convert).Ok? && k < |t.rows|
    requires "Estado" !in t.columns && "Regiao" !in t.columns
    ensures Lookup(CleanSpec(t, convert).value.columns, CleanSpec(t, convert).value.rows[k], "Estado") ==
            Lookup(t.columns, t.rows[k], "Estado - Sigla")
    ensures Lookup(CleanSpec(t, convert).value.columns, CleanSpec(t, convert).value.rows[k], "Regiao") ==
            Lookup(t.columns, t.rows[k], "Regiao - Sigla")
  {
    CleanRenamedLabel(t, convert, k, "Estado - Sigla");
    CleanRenamedLabel(t, convert, k, "Regiao - Sigla");
  }

  lemma CleanRenamedLabel(t: Table, convert: Cell -> Result<real, CleanError>, k: nat, long: string)
    requires WellFormed(t) && CleanSpec(t, convert).Ok? && k < |t.rows|
    requires long in Renames && Renames[long] !in t.columns
    ensures Lookup(CleanSpec(t, convert).value.columns, CleanSpec(t, convert).value.rows[k], Renames[long]) ==
            Lookup(t.columns, t.rows[k], long)
  {
    var t1, t2 := CleanSteps(t, convert);
    assert long != PurchasePrice && long != SalePrice;
    assert Lookup(t1.columns, t1.rows[k], long) == Lookup(t.columns, t.rows[k], long) by {
      assert t1.columns == Kept(t.columns, PurchasePrice);
      assert t1.rows[k] == DropFrom(t.columns, t.rows[k], PurchasePrice);
      DropLookup(t.columns, t.rows[k], PurchasePrice, long);
    }
    assert Lookup(t2.columns, t2.rows[k], long) == Lookup(t1.columns, t1.rows[k], long) by {
      ApplyLookup(t1, SalePrice, convert, k, long);
    }
    assert Renames[long] !in t2.columns by {
      assert t2.columns == t1.columns && t1.columns == Kept(t.columns, PurchasePrice);
    }
    assert forall c :: c in Renames && c != long ==> Renames[c] != Renames[long];
    RenameLookupRenamed(t2.columns, t2.rows[k], Renames, long);
  }

  /** Every label the cleaning does not touch reads the same cell as before. */
  lemma CleanKeepsOthers(t: Table, convert: Cell -> Result<real, CleanError>, k: nat, c: string)
    requires WellFormed(t) && CleanSpec(t, convert).Ok? && k < |t.rows|
    requires c != PurchasePrice && c != SalePrice && c !in Renames && c !in Renames.Values
    ensures Lookup(CleanSpec(t, convert).value.columns, CleanSpec(t, convert).value.rows[k], c) == Lookup(t.columns, t.rows[k], c)
  {
    var t1, t2 := CleanSteps(t, convert);
    assert t1.rows[k] == DropFrom(t.columns, t.rows[k], PurchasePrice);
    DropLookup(t.columns, t.rows[k], PurchasePrice, c);
    ApplyLookup(t1, SalePrice, convert, k, c);
    RenameLookupOther(t2.columns, t2.rows[k], Renames, c);
  }

  // ---------------------------------------------------------------------
  // The module-level `df` that the script rebinds and updates.

  class DataFrame {
    var columns: seq<string>
    var rows: seq<seq<Cell>>

    function Snapshot(): Table
      reads this
    {
      Table(columns, rows)
    }

    predicate Valid()
      reads this
    {
      WellFormed(Snapshot())
    }

    /** The table as `read_csv` produced it. */
    constructor (t: Table)
      requires WellFormed(t)
      ensures Valid() && Snapshot() == t
    {
      columns, rows := t.columns, t.rows;
    }

    /** `df = df.drop(name, axis=1)`; on a KeyError `df` keeps its old value. */
    method Drop(name: string) returns (res: Outcome<CleanError>)
      requires Valid()
      modifies this
      ensures Valid()
      ensures match DropColumn(old(Snapshot()), name)
              case Ok(t) => res == Pass && Snapshot() == t
              case Err(e) => res == Fail(e) && Snapshot() == old(Snapshot())
    {
      var r := DropColumn(Snapshot(), name);
      match r {
        case Ok(t) =>
          columns, rows := t.columns, t.rows;
          res := Pass;
        case Err(e) =>
          res := Fail(e);
      }
    }

    /**
     * `df[name] = df[name].apply(f)`: `f` runs row by row, and the column is
     * assigned only once every row has been converted.
     */
    method Apply(name: string, f: Cell -> Result<real, CleanError>) returns (res: Outcome<CleanError>)
      requires Valid()
      modifies this
      ensures Valid()
      ensures match ApplyTo(old(Snapshot()), name, f)
              case Ok(t) => res == Pass && Snapshot() == t
              case Err(e) => res == Fail(e) && Snapshot() == old(Snapshot())
    {
      var j := IndexOf(columns, name);
      if j == |columns| {
        return Fail(MissingColumn(name));
      }
      var rs := rows;
      assert HasColumn(rs, j);
      var out: seq<seq<Cell>> := [];
      var i := 0;
      while i < |rs|
        invariant 0 <= i <= |rs|
        invariant ApplyColumn(rs[..i], j, f) == Ok(out)
        invariant Snapshot() == old(Snapshot())
      {
        var p := f(rs[i][j]);
        ApplyStep(rs, j, f, i, out);
        if p.Err? {
          ApplyFirstFailure(rs, j, f, i);
          return Fail(p.error);
        }
        out := out + [rs[i][j := Num(p.value)]];
        i := i + 1;
      }
      assert rs[..i] == rs;
      rows := out;
      res := Pass;
    }

    /** `df = df.rename(columns=m)`. */
    method RenameLabels(m: map<string, string>)
      requires Valid()
      modifies this
      ensures Valid() && Snapshot() == Rename(old(Snapshot()), m)
    {
      columns := RenameColumns(columns, m);
    }

    /**
     * Lines 10 to 16 of the script in order. A failing step stops the script
     * with `df` as the earlier steps left it.
     */
    method Clean() returns (res: Outcome<CleanError>)
      requires Valid()
      modifies this
      ensures Valid()
      ensures match CleanSpec(old(Snapshot()), SalePriceOf)
              case Ok(t) => res == Pass && Snapshot() == t
              case Err(e) => res == Fail(e) &&
                             Snapshot() == (match DropColumn(old(Snapshot()), PurchasePrice)
                                            case Ok(t1) => t1
                                            case Err(_) => old(Snapshot()))
    {
      res := Drop(PurchasePrice);
      if res.Fail? {
        return;
      }
      res := Apply(SalePrice, SalePriceOf);
      if res.Fail? {
        return;
      }
      RenameLabels(Renames);
    }
  }
}
