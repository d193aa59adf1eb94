/** `leer_promedios` without the workbook and DataFrame machinery: the rows of
    the "Promedios" sheet are filtered, the first remaining row becomes the
    deduplicated header, the frequency label is set on every row, two columns
    are renamed and a Force column is derived from Pressure. */
module Promedios {
  import opened Options
  import opened Text
  import opened Headers

  /** A value read from a cell: text, or a number. */
  datatype Cell = TextCell(text: string) | NumberCell(value: real)

  /** One worksheet row; an empty cell is `None`. */
  type Row = seq<Option<Cell>>

  /** The outcome of looking up the "Promedios" sheet: absent, or its rows. */
  datatype Sheet = Missing | Present(rows: seq<Row>)

  /** All rows of a worksheet have the same width, as openpyxl yields them. */
  predicate Rectangular(rows: seq<Row>)
  {
    forall k, l :: 0 <= k < |rows| && 0 <= l < |rows| ==> |rows[k]| == |rows[l]|
  }

  /** `any(cell is not None for cell in row)`. */
  predicate NonEmptyRow(r: Row)
  {
    exists j :: 0 <= j < |r| && r[j].Some?
  }

  /** The comprehension of main.py:59: the rows with a filled cell, in order. */
  function KeepRows(rows: seq<Row>): (kept: seq<Row>)
    ensures |kept| <= |rows|
    ensures forall k :: 0 <= k < |kept| ==> kept[k] in rows && NonEmptyRow(kept[k])
  {
    if rows == [] then []
    else (if NonEmptyRow(rows[0]) then [rows[0]] else []) + KeepRows(rows[1..])
  }

  /** Filtering distributes over concatenation, so the kept rows stay in their
      original order. */
  lemma {:induction false} KeepRowsAppend(a: seq<Row>, b: seq<Row>)
    ensures KeepRows(a + b) == KeepRows(a) + KeepRows(b)
  {
    if a != [] {
      assert (a + b)[1..] == a[1..] + b;
      KeepRowsAppend(a[1..], b);
    } else {
      assert a + b == b;
    }
  }

  /** A row survives exactly when it has a filled cell. */
  lemma {:induction false} KeepRowsMembers(rows: seq<Row>, x: Row)
    ensures x in KeepRows(rows) <==> x in rows && NonEmptyRow(x)
  {
    if rows != [] {
      KeepRowsMembers(rows[1..], x);
      assert rows == [rows[0]] + rows[1..];
    }
  }

  /** When every row has a filled cell, all rows are kept. */
  lemma {:induction false} KeepRowsAllFilled(rows: seq<Row>)
    requires forall k :: 0 <= k < |rows| ==> NonEmptyRow(rows[k])
    ensures KeepRows(rows) == rows
  {
    if rows != [] {
      assert NonEmptyRow(rows[0]);
      KeepRowsAllFilled(rows[1..]);
      assert rows == [rows[0]] + rows[1..];
    }
  }

  lemma KeepRowsRectangular(rows: seq<Row>)
    requires Rectangular(rows)
    ensures Rectangular(KeepRows(rows))
  {
    var kept := KeepRows(rows);
    forall k, l | 0 <= k < |kept| && 0 <= l < |kept| ensures |kept[k]| == |kept[l]| {
      var a :| 0 <= a < |rows| && rows[a] == kept[k];
      var b :| 0 <= b < |rows| && rows[b] == kept[l];
    }
  }

  /** The header cells as names: text as it is, a number spelled by Python's
      `str` (the `spell` parameter), an empty cell as `None`. */
  function HeaderNames(row: Row, spell: real -> string): (hs: seq<Option<string>>)
    ensures |hs| == |row|
  {
    seq(|row|, j requires 0 <= j < |row| =>
      match row[j]
      case None => None
      case Some(TextCell(s)) => Some(s)
      case Some(NumberCell(x)) => Some(spell(x)))
  }

  /** A table: column names and rows, cell j of every row under column j. */
  datatype Table = Table(columns: seq<string>, rows: seq<Row>)

  predicate WellShaped(t: Table)
  {
    forall k :: 0 <= k < |t.rows| ==> |t.rows[k]| == |t.columns|
  }

  /** `df[name] = values`: an existing column is overwritten in place, a new
      one is appended at the right. */
  function SetColumn(t: Table, name: string, values: seq<Option<Cell>>): (r: Table)
    requires WellShaped(t) && |values| == |t.rows|
    ensures WellShaped(r) && |r.rows| == |t.rows|
    ensures r.columns == if name in t.columns then t.columns else t.columns + [name]
    ensures forall k, j :: 0 <= k < |r.rows| && 0 <= j < |r.columns| ==>
      r.rows[k][j] == if r.columns[j] == name then values[k] else t.rows[k][j]
  {
    if name in t.columns then
      Table(t.columns, seq(|t.rows|, k requires 0 <= k < |t.rows| =>
        seq(|t.columns|, j requires 0 <= j < |t.columns| =>
          if t.columns[j] == name then values[k] else t.rows[k][j])))
    else
      Table(t.columns + [name], seq(|t.rows|, k requires 0 <= k < |t.rows| => t.rows[k] + [values[k]]))
  }

  const FrequencyColumn := "frecuencia"

  /** The cell holding a frequency label; an unmapped file's label is `None`. */
  function LabelCell(freq: Option<string>): Option<Cell>
  {
    match freq
    case None => None
    case Some(l) => Some(TextCell(l))
  }

  /** main.py:78, the frequency label on every row. */
  function WithFrequency(t: Table, freq: Option<string>): Table
    requires WellShaped(t)
  {
    SetColumn(t, FrequencyColumn, seq(|t.rows|, _ => LabelCell(freq)))
  }

  /** The two renames of main.py:81-84; every other name, "slide_1" included,
      stays. */
  function RenameColumn(n: string): string
  {
    if n == "slide" then "Unity theoretical"
    else if n == "Experimental" then "Laser experimental"
    else n
  }

  /** Only the two exact names change, "slide_1" for one stays; renaming a
      second time changes nothing. */
  lemma RenameIdempotent(n: string)
    ensures RenameColumn(n) != n <==> n == "slide" || n == "Experimental"
    ensures RenameColumn("slide_1") == "slide_1"
    ensures RenameColumn(RenameColumn(n)) == RenameColumn(n)
    ensures RenameColumn(n) != "slide" && RenameColumn(n) != "Experimental"
  {
  }

  function Renamed(t: Table): (r: Table)
  {
    Table(seq(|t.columns|, j requires 0 <= j < |t.columns| => RenameColumn(t.columns[j])), t.rows)
  }

  /** The first position of `n` in `cols`. */
  function IndexOf(cols: seq<string>, n: string): (p: nat)
    requires n in cols
    ensures p < |cols| && cols[p] == n && n !in cols[..p]
  {
    if cols[0] == n then 0
    else
      assert n in cols[1..];
      var q := IndexOf(cols[1..], n);
      assert cols[..q + 1] == [cols[0]] + cols[1..][..q];
      q + 1
  }

  /** The conversion factor of main.py:88 (area times psi-to-pascal), in
      exact arithmetic. */
  const ForceFactor: real := 0.00079173 * 6894.76

  /** The Force cell for a Pressure cell; an empty Pressure gives an empty
      Force, as NaN propagates. */
  function ForceCell(c: Option<Cell>): Option<Cell>
  {
    match c
    case Some(NumberCell(p)) => Some(NumberCell(ForceFactor * p))
    case _ => None
  }

  const PressureColumn := "Pressure"
  const ForceColumn := "Force"

  /** main.py:87-88: with a Pressure column, Force is set to it times the factor. */
  function WithForce(t: Table): Table
    requires WellShaped(t)
  {
    if PressureColumn in t.columns then
      var p := IndexOf(t.columns, PressureColumn);
      SetColumn(t, ForceColumn, seq(|t.rows|, k requires 0 <= k < |t.rows| => ForceCell(t.rows[k][p])))
    else t
  }

  /** The deduplicated header built from the first kept row. */
  function HeaderOf(kept: seq<Row>, spell: real -> string): seq<string>
    requires |kept| >= 1
  {
    Dedup(Keys(HeaderNames(kept[0], spell)))
  }

  /** Data rows that fit under a header. */
  predicate Fits(header: seq<string>, data: seq<Row>)
  {
    forall k :: 0 <= k < |data| ==> |data[k]| == |header|
  }

  /** The DataFrame steps of main.py:77-88 on a header and its data rows:
      the frequency column, the renames, then Force. */
  function Assemble(header: seq<string>, data: seq<Row>, freq: Option<string>): (t: Table)
    requires Fits(header, data)
    ensures WellShaped(t) && |t.rows| == |data|
  {
    WithForce(Renamed(WithFrequency(Table(header, data), freq)))
  }

  /** `leer_promedios(path, frecuencia)` once the workbook has been read:
      no sheet or fewer than two non-empty rows give no table; otherwise the
      header is the first kept row and the data the rows after it. */
  function Normalize(sheet: Sheet, freq: Option<string>, spell: real -> string): (r: Option<Table>)
    requires sheet.Present? ==> Rectangular(sheet.rows)
    ensures r.None? <==> sheet.Missing? || |KeepRows(sheet.rows)| < 2
    ensures r.Some? ==>
      var kept := KeepRows(sheet.rows);
      Fits(HeaderOf(kept, spell), kept[1..]) &&
      r.value == Assemble(HeaderOf(kept, spell), kept[1..], freq) &&
      |r.value.rows| == |kept| - 1
  {
    match sheet
    case Missing => None
    case Present(rows) =>
      var kept := KeepRows(rows);
      if |kept| < 2 then None
      else
        KeepRowsRectangular(rows);
        var header := HeaderOf(kept, spell);
        assert Fits(header, kept[1..]) by {
          forall k | 0 <= k < |kept| - 1 ensures |kept[1..][k]| == |header| {
            assert kept[1..][k] == kept[k + 1];
          }
        }
        Some(Assemble(header, kept[1..], freq))
  }

  /** A table returned by `leer_promedios` is never `df.empty`: it has at
      least one row and one column, so the emptiness test of main.py:215 only
      rejects `None`. */
  lemma NormalizeNotEmpty(sheet: Sheet, freq: Option<string>, spell: real -> string)
    requires sheet.Present? ==> Rectangular(sheet.rows)
    requires Normalize(sheet, freq, spell).Some?
    ensures |Normalize(sheet, freq, spell).value.rows| >= 1
    ensures FrequencyColumn in Normalize(sheet, freq, spell).value.columns
  {
    var kept := KeepRows(sheet.rows);
    AssembleColumns(HeaderOf(kept, spell), kept[1..], freq);
  }

  /** Columns after the DataFrame steps: the header with the two renames
      applied, followed only by an appended frequency and an appended Force
      column; the frequency column is always there, Force whenever Pressure
      is, and neither "slide" nor "Experimental" is left. */
  lemma AssembleColumns(header: seq<string>, data: seq<Row>, freq: Option<string>)
    requires Fits(header, data)
    ensures var t := Assemble(header, data, freq);
            |header| <= |t.columns| &&
            (forall j :: 0 <= j < |header| ==> t.columns[j] == RenameColumn(header[j])) &&
            (forall j :: |header| <= j < |t.columns| ==> t.columns[j] == FrequencyColumn || t.columns[j] == ForceColumn) &&
            FrequencyColumn in t.columns &&
            (PressureColumn in t.columns ==> ForceColumn in t.columns) &&
            "slide" !in t.columns && "Experimental" !in t.columns
  {
    var t1 := WithFrequency(Table(header, data), freq);
    var t2 := Renamed(t1);
    var t3 := WithForce(t2);
    assert FrequencyColumn in t2.columns by {
      var j :| 0 <= j < |t1.columns| && t1.columns[j] == FrequencyColumn;
      assert t2.columns[j] == FrequencyColumn;
    }
    forall n | n in t3.columns ensures n != "slide" && n != "Experimental" {
      var j :| 0 <= j < |t3.columns| && t3.columns[j] == n;
      if j < |t2.columns| {
        RenameIdempotent(t1.columns[j]);
      }
    }
  }

  /** The Pressure column of the assembled table is the one of the
      renamed input, which lies inside the header. */
  lemma AssemblePressureIndex(header: seq<string>, data: seq<Row>, freq: Option<string>)
    requires Fits(header, data)
    requires PressureColumn in Assemble(header, data, freq).columns
    ensures var t2 := Renamed(WithFrequency(Table(header, data), freq));
            PressureColumn in t2.columns &&
            IndexOf(Assemble(header, data, freq).columns, PressureColumn) == IndexOf(t2.columns, PressureColumn) &&
            IndexOf(t2.columns, PressureColumn) < |header|
  {
    var t1 := WithFrequency(Table(header, data), freq);
    var t2 := Renamed(t1);
    var t3 := WithForce(t2);
    assert PressureColumn in t2.columns;
    var p := IndexOf(t2.columns, PressureColumn);
    assert IndexOf(t3.columns, PressureColumn) == p by {
      assert t3.columns[..|t2.columns|] == t2.columns;
    }
    assert t1.columns[p] != FrequencyColumn;
  }

  /** Cells after the DataFrame steps: every row carries the frequency label;
      when Pressure is present, Force on each row is the factor times that
      row's Pressure cell; every other header column keeps the sheet's cell. */
  lemma AssembleCells(header: seq<string>, data: seq<Row>, freq: Option<string>, k: nat, j: nat)
    requires Fits(header, data)
    requires k < |data| && j < |Assemble(header, data, freq).columns|
    ensures var t := Assemble(header, data, freq);
            (t.columns[j] == FrequencyColumn ==> t.rows[k][j] == LabelCell(freq)) &&
            (t.columns[j] == ForceColumn && PressureColumn in t.columns ==>
              IndexOf(t.columns, PressureColumn) < |header| &&
              t.rows[k][j] == ForceCell(data[k][IndexOf(t.columns, PressureColumn)])) &&
            (j < |header| && t.columns[j] != FrequencyColumn &&
              !(t.columns[j] == ForceColumn && PressureColumn in t.columns) ==>
              t.rows[k][j] == data[k][j])
  {
    var t0 := Table(header, data);
    var t1 := WithFrequency(t0, freq);
    var t2 := Renamed(t1);
    var t3 := WithForce(t2);
    assert t3.columns[j] == FrequencyColumn ==> t2.columns[j] == FrequencyColumn;
    assert j < |t1.columns| && t2.columns[j] == FrequencyColumn ==> t1.columns[j] == FrequencyColumn;
    if PressureColumn in t3.columns {
      AssemblePressureIndex(header, data, freq);
    }
  }


  /** The columns the assembly appends are new: neither repeats an earlier
      column. */
  lemma AssembleExtrasFresh(header: seq<string>, data: seq<Row>, freq: Option<string>, i: nat, j: nat)
    requires Fits(header, data)
    requires i < j < |Assemble(header, data, freq).columns| && |header| <= j
    ensures Assemble(header, data, freq).columns[i] != Assemble(header, data, freq).columns[j]
  {
    var t1 := WithFrequency(Table(header, data), freq);
    var t2 := Renamed(t1);
    var t3 := WithForce(t2);
    assert forall m :: 0 <= m < |t2.columns| ==> t3.columns[m] == t2.columns[m];
    if j < |t2.columns| {
      assert FrequencyColumn !in header && t1.columns == header + [FrequencyColumn];
      assert t2.columns[j] == FrequencyColumn;
      assert t1.columns[i] == header[i];
    } else {
      assert PressureColumn in t2.columns && ForceColumn !in t2.columns;
      assert t3.columns == t2.columns + [ForceColumn];
    }
  }

  /** A column name with no underscore that is not a rename target (such as
      "Pressure", "Force" or "frecuencia") appears at most once after the
      header loop and the DataFrame steps, which is why `df["Pressure"]` is a
      single column. */
  lemma AssemblePlainNameOnce(ks: seq<string>, data: seq<Row>, freq: Option<string>, n: string, i: nat, j: nat)
    requires Fits(Dedup(ks), data)
    requires '_' !in n && n != "Unity theoretical" && n != "Laser experimental"
    requires i < j < |Assemble(Dedup(ks), data, freq).columns|
    requires Assemble(Dedup(ks), data, freq).columns[i] == n
    ensures Assemble(Dedup(ks), data, freq).columns[j] != n
  {
    var header := Dedup(ks);
    AssembleColumns(header, data, freq);
    if j < |header| {
      DedupPlainNameAtMostOnce(ks, n, i, j);
    } else {
      AssembleExtrasFresh(header, data, freq, i, j);
    }
  }
}
