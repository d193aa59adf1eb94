/** One trial folder, main.py:208-246: every frequency file of Processing is
    normalized and collected, the collected tables are concatenated, and the
    chart battery is chosen from the consolidated columns. */
module Folder {
  import opened Options
  import opened Headers
  import opened Promedios
  import opened Frequency
  import opened Charts

  /** A directory entry of Processing with what reading its "Promedios" sheet
      gives (`Missing` when the sheet is absent). */
  datatype FileEntry = FileEntry(name: string, sheet: Sheet)

  predicate ReadableEntry(f: FileEntry)
  {
    f.sheet.Present? ==> Rectangular(f.sheet.rows)
  }

  predicate Readable(files: seq<FileEntry>)
  {
    forall k :: 0 <= k < |files| ==> ReadableEntry(files[k])
  }

  /** A table kept for the folder, with the CSV it is written to and its label. */
  datatype Export = Export(csv: string, freq: Option<string>, table: Table)

  /** `df.empty`. */
  predicate IsEmpty(t: Table)
  {
    |t.rows| == 0 || |t.columns| == 0
  }

  /** What one directory entry contributes: a qualifying file whose sheet
      gives a non-empty table contributes that table; nothing else does. */
  function ExportOf(f: FileEntry, spell: real -> string): seq<Export>
    requires ReadableEntry(f)
  {
    if IsFrequencyFile(f.name) then
      var freq := LabelOfFile(f.name);
      match Normalize(f.sheet, freq, spell)
      case Some(t) => if IsEmpty(t) then [] else [Export(CsvName(freq), freq, t)]
      case None => []
    else []
  }

  /** What each entry contributes, in discovery order. */
  function Contributions(files: seq<FileEntry>, spell: real -> string): (cs: seq<seq<Export>>)
    requires Readable(files)
    ensures |cs| == |files|
  {
    seq(|files|, k requires 0 <= k < |files| => ExportOf(files[k], spell))
  }

  function Flatten(xss: seq<seq<Export>>): seq<Export>
  {
    if xss == [] then [] else Flatten(xss[..|xss| - 1]) + xss[|xss| - 1]
  }

  /** `consolidado_total` after the entries in `files`, in discovery order. */
  function Collect(files: seq<FileEntry>, spell: real -> string): seq<Export>
    requires Readable(files)
  {
    Flatten(Contributions(files, spell))
  }

  /** The concatenated table, reduced to what the model keeps of it: the
      union of the column names, and every row tagged with its label. */
  datatype Consolidated = Consolidated(columns: set<string>, rows: seq<(Option<string>, Row)>)

  function Tagged(e: Export): seq<(Option<string>, Row)>
  {
    seq(|e.table.rows|, k requires 0 <= k < |e.table.rows| => (e.freq, e.table.rows[k]))
  }

  /** `pd.concat(consolidado_total, ignore_index=True)`. */
  function Consolidate(exports: seq<Export>): Consolidated
  {
    if exports == [] then Consolidated({}, [])
    else
      var c := Consolidate(exports[..|exports| - 1]);
      var e := exports[|exports| - 1];
      Consolidated(c.columns + (set n | n in e.table.columns), c.rows + Tagged(e))
  }

  datatype FolderOutcome =
    | NoValidData
    | Completed(exports: seq<Export>, consolidated: Consolidated, charts: set<Chart>)

  /** The outcome of one trial folder: the failure message when nothing was
      collected, otherwise the exports, the concatenation and the charts. */
  function FolderSpec(files: seq<FileEntry>, spell: real -> string): FolderOutcome
    requires Readable(files)
  {
    var exports := Collect(files, spell);
    if exports == [] then NoValidData
    else Completed(exports, Consolidate(exports), ChartsFor(Consolidate(exports).columns))
  }

  /** The files a folder outcome writes. */
  function OutputFiles(outcome: FolderOutcome): set<string>
  {
    match outcome
    case NoValidData => {}
    case Completed(exports, _, charts) =>
      (set e | e in exports :: e.csv) + {"consolidado_total.csv"} +
      (set c, f | c in charts && f in ChartFiles(c) :: f)
  }

  /** The per-folder loop of main.py:208-246; reading the files is done by
      the caller, which hands over every entry with its sheet. */
  method ProcessFolder(files: seq<FileEntry>, spell: real -> string) returns (outcome: FolderOutcome)
    requires Readable(files)
    ensures outcome == FolderSpec(files, spell)
  {
    var consolidadoTotal: seq<Export> := [];
    for i := 0 to |files|
      invariant consolidadoTotal == Collect(files[..i], spell)
    {
      CollectSnoc(files, i, spell);
      var archivo := files[i];
      if IsFrequencyFile(archivo.name) {
        var freq := LabelOfFile(archivo.name);
        var df := Normalize(archivo.sheet, freq, spell);
        if df.Some? && !IsEmpty(df.value) {
          consolidadoTotal := consolidadoTotal + [Export(CsvName(freq), freq, df.value)];
        }
      }
    }
    assert files[..|files|] == files;
    if consolidadoTotal != [] {
      var todo := Consolidate(consolidadoTotal);
      outcome := Completed(consolidadoTotal, todo, ChartsFor(todo.columns));
    } else {
      outcome := NoValidData;
    }
  }

  lemma ReadableAppend(a: seq<FileEntry>, b: seq<FileEntry>)
    requires Readable(a) && Readable(b)
    ensures Readable(a + b)
  {
    forall k | 0 <= k < |a + b| ensures ReadableEntry((a + b)[k]) {
      if k < |a| {
        assert (a + b)[k] == a[k];
      } else {
        assert (a + b)[k] == b[k - |a|];
      }
    }
  }

  lemma ReadablePrefix(files: seq<FileEntry>, n: nat)
    requires Readable(files) && n <= |files|
    ensures Readable(files[..n])
  {
    forall k | 0 <= k < n ensures ReadableEntry(files[..n][k]) {
      assert files[..n][k] == files[k];
    }
  }

  lemma {:induction false} FlattenAppend(a: seq<seq<Export>>, b: seq<seq<Export>>)
    ensures Flatten(a + b) == Flatten(a) + Flatten(b)
    decreases |b|
  {
    if b == [] {
      assert a + b == a;
    } else {
      var ab := a + b;
      assert ab[..|ab| - 1] == a + b[..|b| - 1];
      assert ab[|ab| - 1] == b[|b| - 1];
      FlattenAppend(a, b[..|b| - 1]);
    }
  }

  lemma {:induction false} FlattenEmptyIff(xss: seq<seq<Export>>)
    ensures Flatten(xss) == [] <==> forall k :: 0 <= k < |xss| ==> xss[k] == []
    decreases |xss|
  {
    if xss != [] {
      var init := xss[..|xss| - 1];
      FlattenEmptyIff(init);
      assert forall k :: 0 <= k < |init| ==> init[k] == xss[k];
    }
  }

  lemma ContributionsAppend(a: seq<FileEntry>, b: seq<FileEntry>, spell: real -> string)
    requires Readable(a) && Readable(b)
    ensures Readable(a + b)
    ensures Contributions(a + b, spell) == Contributions(a, spell) + Contributions(b, spell)
  {
    ReadableAppend(a, b);
    var l, r := Contributions(a + b, spell), Contributions(a, spell) + Contributions(b, spell);
    forall k | 0 <= k < |l| ensures l[k] == r[k] {
      if k < |a| {
        assert (a + b)[k] == a[k];
      } else {
        assert (a + b)[k] == b[k - |a|];
      }
    }
  }

  /** Collecting distributes over a split of the directory listing. */
  lemma CollectAppend(a: seq<FileEntry>, b: seq<FileEntry>, spell: real -> string)
    requires Readable(a) && Readable(b)
    ensures Readable(a + b)
    ensures Collect(a + b, spell) == Collect(a, spell) + Collect(b, spell)
  {
    ContributionsAppend(a, b, spell);
    FlattenAppend(Contributions(a, spell), Contributions(b, spell));
  }

  /** Processing one more entry appends what it contributes. */
  lemma CollectSnoc(files: seq<FileEntry>, i: nat, spell: real -> string)
    requires Readable(files) && i < |files|
    ensures Readable(files[..i]) && Readable(files[..i + 1])
    ensures Collect(files[..i + 1], spell) == Collect(files[..i], spell) + ExportOf(files[i], spell)
  {
    ReadablePrefix(files, i);
    ReadablePrefix(files, i + 1);
    var cs := Contributions(files[..i + 1], spell);
    assert cs[..i] == Contributions(files[..i], spell) by {
      forall k | 0 <= k < i ensures cs[..i][k] == Contributions(files[..i], spell)[k] {
        assert files[..i + 1][k] == files[..i][k];
      }
    }
    assert cs[i] == ExportOf(files[i], spell) by {
      assert files[..i + 1][i] == files[i];
    }
  }

  /** A qualifying file contributes exactly when its sheet exists and keeps at
      least two non-empty rows, whatever its label; the emptiness test never
      rejects a table. */
  lemma ExportOfCharacterized(f: FileEntry, spell: real -> string)
    requires ReadableEntry(f)
    ensures ExportOf(f, spell) != [] <==>
      IsFrequencyFile(f.name) && f.sheet.Present? && |KeepRows(f.sheet.rows)| >= 2
    ensures ExportOf(f, spell) != [] ==>
      ExportOf(f, spell) == [Export(CsvName(LabelOfFile(f.name)), LabelOfFile(f.name),
                                    Normalize(f.sheet, LabelOfFile(f.name), spell).value)]
  {
    if IsFrequencyFile(f.name) && Normalize(f.sheet, LabelOfFile(f.name), spell).Some? {
      NormalizeNotEmpty(f.sheet, LabelOfFile(f.name), spell);
    }
  }

  /** Nothing is collected exactly when no entry contributes. */
  lemma CollectEmptyIff(files: seq<FileEntry>, spell: real -> string)
    requires Readable(files)
    ensures Collect(files, spell) == [] <==> forall k :: 0 <= k < |files| ==> ExportOf(files[k], spell) == []
  {
    var cs := Contributions(files, spell);
    FlattenEmptyIff(cs);
    assert forall k :: 0 <= k < |files| ==> cs[k] == ExportOf(files[k], spell);
  }

  /** The failure message is printed exactly when no entry contributes. */
  lemma NoValidDataIff(files: seq<FileEntry>, spell: real -> string)
    requires Readable(files)
    ensures FolderSpec(files, spell).NoValidData? <==>
      forall k :: 0 <= k < |files| ==> ExportOf(files[k], spell) == []
  {
    CollectEmptyIff(files, spell);
  }

  function TotalRows(exports: seq<Export>): nat
  {
    if exports == [] then 0 else TotalRows(exports[..|exports| - 1]) + |exports[|exports| - 1].table.rows|
  }

  /** Concatenation neither drops nor duplicates rows and keeps each row's
      frequency label. */
  lemma {:induction false} ConsolidateRows(exports: seq<Export>, i: nat)
    ensures |Consolidate(exports).rows| == TotalRows(exports)
    ensures i < |Consolidate(exports).rows| ==>
      exists e, k :: e in exports && 0 <= k < |e.table.rows| && Consolidate(exports).rows[i] == (e.freq, e.table.rows[k])
    decreases |exports|
  {
    if exports != [] {
      var init := exports[..|exports| - 1];
      var e := exports[|exports| - 1];
      ConsolidateRows(init, i);
      var c := Consolidate(init);
      if i < |Consolidate(exports).rows| {
        if i < |c.rows| {
          var e', k :| e' in init && 0 <= k < |e'.table.rows| && c.rows[i] == (e'.freq, e'.table.rows[k]);
          assert e' in exports;
        } else {
          var k := i - |c.rows|;
          assert Consolidate(exports).rows[i] == Tagged(e)[k];
        }
      }
    }
  }

  /** Concatenating two lists of tables is concatenating their rows, in
      order, and uniting their columns. */
  lemma {:induction false} ConsolidateAppend(a: seq<Export>, b: seq<Export>)
    ensures Consolidate(a + b).rows == Consolidate(a).rows + Consolidate(b).rows
    ensures Consolidate(a + b).columns == Consolidate(a).columns + Consolidate(b).columns
    decreases |b|
  {
    if b != [] {
      var ab := a + b;
      assert ab[..|ab| - 1] == a + b[..|b| - 1];
      assert ab[|ab| - 1] == b[|b| - 1];
      ConsolidateAppend(a, b[..|b| - 1]);
    } else {
      assert a + b == a;
    }
  }

  /** Every consolidated table carries the frequency column, so the charts,
      which group by it, always have it. */
  lemma {:induction false} ConsolidateHasFrequency(files: seq<FileEntry>, spell: real -> string)
    requires Readable(files)
    requires FolderSpec(files, spell).Completed?
    ensures FrequencyColumn in FolderSpec(files, spell).consolidated.columns
    ensures TimeVsExperimentalVsTheoretical in FolderSpec(files, spell).charts
    decreases |files|
  {
    var init := files[..|files| - 1];
    var f := files[|files| - 1];
    CollectSnoc(files, |files| - 1, spell);
    assert files[..|files|] == files;
    if ExportOf(f, spell) != [] {
      ExportOfCharacterized(f, spell);
      NormalizeNotEmpty(f.sheet, LabelOfFile(f.name), spell);
    } else {
      assert Collect(files, spell) == Collect(init, spell);
      ConsolidateHasFrequency(init, spell);
    }
  }

  /** What a completed outcome writes: the consolidated CSV, the CSV of
      every collected table and both files of every drawn chart. */
  lemma OutputFilesOfCompleted(o: FolderOutcome, c: Chart)
    requires o.Completed? && c in o.charts
    ensures "consolidado_total.csv" in OutputFiles(o)
    ensures forall e :: e in o.exports ==> e.csv in OutputFiles(o)
    ensures FileStem(c) + ".png" in OutputFiles(o) && FileStem(c) + ".pdf" in OutputFiles(o)
  {
    var png, pdf := FileStem(c) + ".png", FileStem(c) + ".pdf";
    assert png in ChartFiles(c) && pdf in ChartFiles(c);
    assert png in (set c', f | c' in o.charts && f in ChartFiles(c') :: f);
    assert pdf in (set c', f | c' in o.charts && f in ChartFiles(c') :: f);
  }

  lemma OverlayFiles()
    ensures FileStem(TimeVsExperimentalVsTheoretical) + ".png" == "time_vs_experimental_vs_theoretical.png"
    ensures FileStem(TimeVsExperimentalVsTheoretical) + ".pdf" == "time_vs_experimental_vs_theoretical.pdf"
  {
  }

  /** A folder without data writes nothing; one with data writes the
      consolidated CSV, one CSV per collected table and a raster and a vector
      file of the overlay chart at least. */
  lemma OutputFilesOfOutcome(files: seq<FileEntry>, spell: real -> string)
    requires Readable(files)
    ensures FolderSpec(files, spell).NoValidData? ==> OutputFiles(FolderSpec(files, spell)) == {}
    ensures FolderSpec(files, spell).Completed? ==>
      var o := FolderSpec(files, spell);
      "consolidado_total.csv" in OutputFiles(o) &&
      (forall e :: e in o.exports ==> e.csv in OutputFiles(o)) &&
      "time_vs_experimental_vs_theoretical.png" in OutputFiles(o) &&
      "time_vs_experimental_vs_theoretical.pdf" in OutputFiles(o)
  {
    var o := FolderSpec(files, spell);
    if o.Completed? {
      var c := TimeVsExperimentalVsTheoretical;
      assert c in o.charts;
      OutputFilesOfCompleted(o, c);
      OverlayFiles();
    }
  }
}
