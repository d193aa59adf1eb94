/** Worked scenarios: one "Promedios" sheet normalized, a folder holding that
    sheet as its only frequency workbook (labelled or not), and a folder with
    no frequency workbook at all. */
module Scenarios {
  import opened Options
  import opened Headers
  import opened Promedios
  import opened Frequency
  import opened Charts
  import opened Folder

  function Num(x: real): Option<Cell>
  {
    Some(NumberCell(x))
  }

  function Txt(s: string): Option<Cell>
  {
    Some(TextCell(s))
  }

  /** A "Promedios" sheet with the columns slide, Experimental, Pressure and
      time and three rows of data. */
  const ExampleRows: seq<Row> := [
    [Txt("slide"), Txt("Experimental"), Txt("Pressure"), Txt("time")],
    [Num(0.1), Num(0.2), Num(10.0), Num(0.0)],
    [Num(0.3), Num(0.4), Num(20.0), Num(0.5)],
    [Num(0.5), Num(0.6), Num(30.0), Num(1.0)]
  ]

  const ExampleColumns: seq<string> :=
    ["Unity theoretical", "Laser experimental", "Pressure", "time", "frecuencia", "Force"]

  const ExampleHeader: seq<string> := ["slide", "Experimental", "Pressure", "time"]

  lemma ExampleRowsFilled()
    ensures Rectangular(ExampleRows)
    ensures KeepRows(ExampleRows) == ExampleRows
  {
    var rows := ExampleRows;
    assert |rows| == 4;
    assert forall k :: 0 <= k < 4 ==> |rows[k]| == 4;
    forall k | 0 <= k < |rows| ensures NonEmptyRow(rows[k]) {
      assert rows[k][0].Some?;
    }
    KeepRowsAllFilled(rows);
  }

  lemma ExampleHeaderDistinct()
    ensures Dedup(ExampleHeader) == ExampleHeader
  {
    DedupDistinct(ExampleHeader);
  }

  lemma ExampleHeaderNames(spell: real -> string)
    ensures Keys(HeaderNames(ExampleRows[0], spell)) == ExampleHeader
  {
    var hs := HeaderNames(ExampleRows[0], spell);
    assert hs == [Some("slide"), Some("Experimental"), Some("Pressure"), Some("time")];
  }

  /** The example sheet keeps all four rows, and its header needs no
      renaming of duplicates. */
  lemma ExampleShape(spell: real -> string)
    ensures Rectangular(ExampleRows)
    ensures KeepRows(ExampleRows) == ExampleRows
    ensures HeaderOf(ExampleRows, spell) == ExampleHeader
    ensures Fits(ExampleHeader, ExampleRows[1..])
  {
    ExampleRowsFilled();
    ExampleHeaderNames(spell);
    ExampleHeaderDistinct();
    assert forall k :: 0 <= k < 3 ==> ExampleRows[1..][k] == ExampleRows[k + 1];
  }

  lemma ExampleAssembledColumns(data: seq<Row>, freq: Option<string>)
    requires Fits(ExampleHeader, data)
    ensures Assemble(ExampleHeader, data, freq).columns == ExampleColumns
  {
    var t1 := WithFrequency(Table(ExampleHeader, data), freq);
    assert t1.columns == ExampleHeader + [FrequencyColumn];
    var t2 := Renamed(t1);
    assert t2.columns == ["Unity theoretical", "Laser experimental", "Pressure", "time", "frecuencia"];
    assert IndexOf(t2.columns, PressureColumn) == 2;
    assert WithForce(t2).columns == t2.columns + [ForceColumn];
  }

  /** Under the example header, whatever the data: the two columns renamed,
      the label and Force appended, Force computed from the Pressure cell. */
  lemma ExampleAssembled(data: seq<Row>, freq: Option<string>)
    requires Fits(ExampleHeader, data)
    ensures Assemble(ExampleHeader, data, freq).columns == ExampleColumns
    ensures forall k :: 0 <= k < |data| ==>
              Assemble(ExampleHeader, data, freq).rows[k][4] == LabelCell(freq) &&
              Assemble(ExampleHeader, data, freq).rows[k][5] == ForceCell(data[k][2])
  {
    ExampleAssembledColumns(data, freq);
    var t := Assemble(ExampleHeader, data, freq);
    assert IndexOf(t.columns, PressureColumn) == 2;
    forall k | 0 <= k < |data|
      ensures t.rows[k][4] == LabelCell(freq) && t.rows[k][5] == ForceCell(data[k][2])
    {
      AssembleCells(ExampleHeader, data, freq, k, 4);
      AssembleCells(ExampleHeader, data, freq, k, 5);
    }
  }


  /** Normalizing the example sheet: its three data rows under the
      assembled columns, each row's cells as the previous lemma states. */
  lemma ExampleNormalized(freq: Option<string>, spell: real -> string)
    ensures Rectangular(ExampleRows)
    ensures Normalize(Present(ExampleRows), freq, spell) == Some(Assemble(ExampleHeader, ExampleRows[1..], freq))
    ensures var r := Normalize(Present(ExampleRows), freq, spell);
            r.Some? && r.value.columns == ExampleColumns && |r.value.rows| == 3
  {
    ExampleShape(spell);
    ExampleAssembled(ExampleRows[1..], freq);
  }

  /** A folder of one entry collects what that entry contributes. */
  lemma SingleEntryFolder(f: FileEntry, spell: real -> string)
    requires ReadableEntry(f)
    ensures Readable([f])
    ensures Collect([f], spell) == ExportOf(f, spell)
  {
    var cs := Contributions([f], spell);
    assert cs == [ExportOf(f, spell)];
    assert cs[..0] == [];
    assert Flatten(cs) == Flatten(cs[..0]) + cs[0];
  }

  /** A folder whose one entry contributes one table. */
  lemma SingleExportFolder(f: FileEntry, e: Export, spell: real -> string)
    requires ReadableEntry(f) && ExportOf(f, spell) == [e]
    ensures Readable([f])
    ensures FolderSpec([f], spell) ==
      var cols := (set n | n in e.table.columns);
      Completed([e], Consolidated(cols, Tagged(e)), ChartsFor(cols))
  {
    SingleEntryFolder(f, spell);
    SingleExportConsolidated(e);
  }

  /** Concatenating one table keeps its columns and its rows. */
  lemma SingleExportConsolidated(e: Export)
    ensures Consolidate([e]).columns == set n | n in e.table.columns
    ensures Consolidate([e]).rows == Tagged(e)
  {
    assert [e][..0] == [];
  }

  /** The example workbook under a qualifying name contributes one table. */
  lemma ExampleExport(name: string, freq: Option<string>, spell: real -> string)
    requires IsFrequencyFile(name) && LabelOfFile(name) == freq
    ensures ReadableEntry(FileEntry(name, Present(ExampleRows)))
    ensures var r := Normalize(Present(ExampleRows), freq, spell);
            r.Some? && r.value.columns == ExampleColumns && |r.value.rows| == 3
    ensures var t := Normalize(Present(ExampleRows), freq, spell).value;
            ExportOf(FileEntry(name, Present(ExampleRows)), spell) == [Export(CsvName(freq), freq, t)]
  {
    ExampleNormalized(freq, spell);
  }

  /** A folder holding only one qualifying workbook with the example sheet,
      labelled or not: one CSV named after the label ("None_promedios.csv"
      for a file the table does not list, such as "frequency_4.xlsm"), holding
      the example's normalized table with its columns and three rows. */
  lemma ExampleFolderExports(name: string, freq: Option<string>, spell: real -> string)
    requires IsFrequencyFile(name) && LabelOfFile(name) == freq
    ensures Readable([FileEntry(name, Present(ExampleRows))])
    ensures var o := FolderSpec([FileEntry(name, Present(ExampleRows))], spell);
            o.Completed? && |o.exports| == 1 &&
            o.exports[0].csv == CsvName(freq) && o.exports[0].freq == freq &&
            o.exports[0].table.columns == ExampleColumns &&
            |o.exports[0].table.rows| == 3 &&
            Normalize(Present(ExampleRows), freq, spell) == Some(o.exports[0].table)
  {
    var f := FileEntry(name, Present(ExampleRows));
    ExampleExport(f.name, freq, spell);
    var t := Normalize(f.sheet, freq, spell).value;
    var e := Export(CsvName(freq), freq, t);
    SingleExportFolder(f, e, spell);
  }

  /** The same folder with the workbook named "frequency_1.xlsm" writes its
      table to "0.25Hz_promedios.csv", labelled 0.25 Hz. */
  lemma FirstFileFolder(spell: real -> string)
    ensures Readable([FileEntry(FilePrefix + "1" + Extension, Present(ExampleRows))])
    ensures var o := FolderSpec([FileEntry(FilePrefix + "1" + Extension, Present(ExampleRows))], spell);
            o.Completed? && |o.exports| == 1 &&
            o.exports[0].csv == "0.25Hz_promedios.csv" && o.exports[0].freq == Some("0.25Hz")
  {
    FirstFileLabel();
    ExampleFolderExports(FilePrefix + "1" + Extension, Some("0.25Hz"), spell);
    FirstFileCsvName();
  }

  /** The example columns get every chart but time_vs_dac_bits, since
      "dac_bits" is absent. */
  lemma ExampleCharts()
    ensures ChartsFor(set n | n in ExampleColumns) ==
      {UnityVsLaser, TimeVsUnity, TimeVsLaser, LaserVsForce, TimeVsExperimentalVsTheoretical}
  {
    var cols := set n | n in ExampleColumns;
    assert cols == {"Unity theoretical", "Laser experimental", "Pressure", "time", "frecuencia", "Force"};
    assert "dac_bits" !in cols;
  }

  /** The same folder consolidates the three rows and draws every chart but
      time_vs_dac_bits. */
  lemma ExampleFolderCharts(name: string, freq: Option<string>, spell: real -> string)
    requires IsFrequencyFile(name) && LabelOfFile(name) == freq
    ensures Readable([FileEntry(name, Present(ExampleRows))])
    ensures var o := FolderSpec([FileEntry(name, Present(ExampleRows))], spell);
            o.Completed? &&
            |o.consolidated.rows| == 3 &&
            o.charts == {UnityVsLaser, TimeVsUnity, TimeVsLaser, LaserVsForce, TimeVsExperimentalVsTheoretical}
  {
    var f := FileEntry(name, Present(ExampleRows));
    ExampleExport(f.name, freq, spell);
    var t := Normalize(f.sheet, freq, spell).value;
    var e := Export(CsvName(freq), freq, t);
    SingleExportFolder(f, e, spell);
    ExampleCharts();
  }

  /** Names that do not qualify: another extension, or no prefix. */
  lemma NotFrequencyFiles()
    ensures !IsFrequencyFile("notes.txt")
    ensures !IsFrequencyFile("frequency_1.xlsx")
    ensures !IsFrequencyFile("Frequency_1.xlsm")
  {
    assert |"notes.txt"| < |FilePrefix|;
    assert "frequency_1.xlsx"[12..] == "xlsx";
    assert "Frequency_1.xlsm"[0] == 'F';
  }

  /** A Processing folder without any qualifying name, such as one holding
      "notes.txt", "frequency_1.xlsx" and "Frequency_1.xlsm", reports
      failure and writes nothing, whatever its sheets hold. */
  lemma NoFrequencyFiles(files: seq<FileEntry>, spell: real -> string)
    requires Readable(files)
    requires forall k :: 0 <= k < |files| ==> !IsFrequencyFile(files[k].name)
    ensures FolderSpec(files, spell).NoValidData?
    ensures OutputFiles(FolderSpec(files, spell)) == {}
  {
    NoValidDataIff(files, spell);
  }
}
