# Averaged-results consolidation of a pressure-actuator test bench, in Dafny

`main.py` walks the trial folders of a test campaign. In the `Processing`
directory of each folder it reads the "Promedios" (averages) sheet of every
`frequency_<N>.xlsm` workbook and normalizes it: empty rows are dropped, the
first remaining row becomes a deduplicated header, a `frecuencia` column
carries the file's frequency label, two columns are renamed, and `Force` is
derived from `Pressure`. Each table is written as `<label>_promedios.csv`.
The tables are then concatenated into `consolidado_total.csv`, and a battery
of charts is chosen from the consolidated columns.

The model has one module per part of the script:

- `Text` holds the string facts the script relies on: ASCII
  `lower`/`upper`, the decimal spelling of the duplicate counter, `startswith`
  and `endswith`, and `str.replace(old, "")`, which removes *every*
  non-overlapping occurrence.
- `Headers` holds the header loop. It is an imperative method over a
  `map<string, nat>` (`col_count`) and a growing `seq` (`final_cols`),
  proved equal to the reference definition `Dedup`. Lemmas about `Dedup`
  give the naming rule.
- `Promedios` holds `leer_promedios` once the workbook has been read. It
  covers the row filter, the header, the `df["frecuencia"] = …` and
  `df["Force"] = …` column assignments (overwrite or append), and the renames.
- `Labels` holds `with_units`, the legend label `y[0].upper() + y[1:].lower()`
  and the marker cycle.
- `Frequency` holds the file-name test, the `.xlsm` removal, the label table
  and the CSV name.
- `Charts` holds which charts are drawn, their file names, axes and legends.
- `Folder` holds the per-folder loop as a method over `consolidado_total`,
  proved equal to the function `FolderSpec`, with lemmas about collection,
  concatenation and the files written.
- `Scenarios` works through one sheet and three kinds of folder.

A qualifying file whose key is not in the label table is not skipped:
`frecuencia_map.get` gives `None`, the file is still read, and its table is
written to
`None_promedios.csv` with an empty `frecuencia` cell on every row
(main.py:211-217). The model follows the code: see `Frequency.UnmappedFile`
and `Scenarios.ExampleFolderExports`.

The loop does not always make names unique (`Headers.DedupNotUnique`): a raw
`value_1` collides with the renamed second `value`. pandas accepts duplicate
column names, so the model keeps this behaviour as it is.

## Model

| member | source | states |
|---|---|---|
| Headers.Keys | main.py:67-69 | One key per header cell, in order: the cell's name, or `Unnamed` for an empty cell. |
| Headers.Dedup | main.py:63-75 | Reference definition of the header the loop emits: each position keeps its key, suffixed with how many earlier positions hold the same key. `Headers.Deduplicate` is proved equal to it, and `Headers.DedupNaming` states its naming rule. |
| Headers.Deduplicate | main.py:63-75 | The loop's `final_cols` equals `Dedup` of the header keys and is as long as the raw header. `col_count` holds exactly the names seen, and it maps each one to its occurrence count minus one. |
| Headers.DedupNaming | main.py:70-75 | The first occurrence of a name is emitted unchanged. A later occurrence is emitted as the name + `_` + its decimal counter, which is at least 1. |
| Headers.DedupDistinct | main.py:70-72 | A header without repeated names comes out unchanged. |
| Headers.DedupEmptyHeaders | main.py:68-75 | A header made of n empty cells, and nothing else, becomes `Unnamed`, `Unnamed_1`, …, `Unnamed_<n-1>`. |
| Headers.DedupUnnamedCollision | main.py:68-75 | An empty cell after a cell reading `Unnamed` counts as a repeat of that name and becomes `Unnamed_1`. |
| Headers.DedupRepeatedValue | main.py:67-75 | `["time", "value", "value"]` becomes `["time", "value", "value_1"]`. |
| Headers.DedupNotUnique | main.py:73-75 | The loop does not always produce unique names: `["value", "value_1", "value"]` gives `value_1` twice. |
| Headers.DedupUniqueWithoutUnderscores | main.py:67-75 | When no raw name contains `_`, the emitted names are pairwise different. |
| Headers.DedupPlainNameAtMostOnce | main.py:67-75 | A name without `_` (such as `Pressure`, `Force` or `frecuencia`) is emitted at most once, and only where the raw header holds it. |
| Text.Lower | main.py:13 | Lower-casing keeps the length and leaves no upper-case letter. Every character that is not an upper-case letter is kept, and each position holds the same letter up to case. |
| Text.LowerIdempotent | main.py:13 | Lower-casing twice is lower-casing once. |
| Text.ShowNat | main.py:75 | The spelling of the counter in `f"{col}_{col_count[col]}"`: at least one character, all decimal digits. |
| Text.ParseShowNat | main.py:75 | The counter's decimal spelling reads back as the counter. |
| Text.ShowNatInjective | main.py:75 | Different counters are spelled differently. |
| Text.ShowNatNoUnderscore | main.py:75 | A counter's spelling contains no `_`. |
| Text.SplitAtUnderscore | main.py:75 | Two suffixed names built from `_`-free bases are equal only if their bases and suffixes are equal. |
| Text.RemoveAll | main.py:211 | Definition of `str.replace(p, "")`: scanning from the left, each occurrence is dropped and the scan resumes after it. The result is never longer than the text, and the three lemmas below state its behaviour. |
| Text.RemoveAllNoOccurrence | main.py:211 | Removing a pattern that does not occur leaves the text unchanged. |
| Text.RemoveAllSkipsPrefix | main.py:211 | A prefix that cannot start the pattern is kept, and removal continues after it. |
| Text.RemoveAllAppendPattern | main.py:211 | When the pattern's first character does not recur in it, as for `.xlsm`, a trailing occurrence of the pattern is removed with the rest. |
| Promedios.HeaderNames | main.py:63 | One name per header cell: text as it is, a number spelled by Python's `str`, an empty cell as no name. |
| Promedios.KeepRows | main.py:59 | Kept rows are rows of the sheet with a filled cell, and there are no more of them than rows. |
| Promedios.KeepRowsMembers | main.py:59 | A row is kept exactly when it is in the sheet and has a filled cell. |
| Promedios.KeepRowsAppend | main.py:59 | Filtering distributes over concatenation, so kept rows stay in sheet order. |
| Promedios.KeepRowsAllFilled | main.py:59 | When every row has a filled cell, all rows are kept. |
| Promedios.KeepRowsRectangular | main.py:57-59 | Filtering keeps the rows of equal width. |
| Promedios.Normalize | main.py:53-64 | There is no table exactly when the sheet is missing or fewer than two rows survive the filter. Otherwise the header is the deduplicated first kept row, the data are the kept rows after it, and there is one table row per data row. |
| Promedios.NormalizeNotEmpty | main.py:77-88 | A returned table has at least one row and a `frecuencia` column, so `df.empty` never rejects it. |
| Promedios.SetColumn | main.py:78 | `df[name] = values` keeps an existing column at its position, or appends a new column at the right. Cells under `name` get the new values, and every other cell is unchanged. |
| Promedios.WithFrequency | main.py:78 | `df["frecuencia"] = frecuencia`: `Promedios.SetColumn` with the label cell on every row. Its effect on the table is stated by `Promedios.AssembleColumns` and `Promedios.AssembleCells`. |
| Promedios.RenameColumn | main.py:81-84 | Definition of the two renames. `Promedios.RenameIdempotent` states which names change. |
| Promedios.Renamed | main.py:81-84 | Every column name passes through `Promedios.RenameColumn`, and the rows stay as they are. |
| Promedios.RenameIdempotent | main.py:81-84 | Only the exact names `slide` and `Experimental` change, so `slide_1` stays. Renaming twice is renaming once, and no renamed name is `slide` or `Experimental`. |
| Promedios.IndexOf | main.py:88 | The position found holds the name, and no earlier position does. |
| Promedios.ForceCell | main.py:88 | The Force cell of one row: the factor times a numeric Pressure cell, empty otherwise. |
| Promedios.WithForce | main.py:87-88 | With a `Pressure` column, `Force` is set from it row by row; without one the table is unchanged. |
| Promedios.Assemble | main.py:77-88 | The DataFrame steps in the script's order: the frequency column, the renames, then Force. Every row stays, at the table's width. |
| Promedios.AssembleColumns | main.py:77-88 | The header columns come out renamed in place. Any extra columns are only `frecuencia` and `Force`. `frecuencia` is always present, `Force` is present whenever `Pressure` is, and no `slide` or `Experimental` column remains. |
| Promedios.AssembleCells | main.py:77-88 | Every `frecuencia` cell holds the label. The `Force` cell is the factor 0.00079173 × 6894.76 times that row's `Pressure` cell. Every other cell is the cell read from the sheet. |
| Promedios.AssembleExtrasFresh | main.py:78-88 | An appended `frecuencia` or `Force` column repeats no earlier column. |
| Promedios.AssemblePlainNameOnce | main.py:63-88 | In the finished table, a column name without `_` other than the two rename targets appears at most once. |
| Labels.WithUnits | main.py:12-21 | The result starts with the label as given. |
| Labels.WithUnitsByTable | main.py:12-21 | A label whose lower case is `time`, `laser experimental`, `unity theoretical` or `force` gets ` (s)`, ` (m)`, ` (m)` or ` (N)` after its original spelling. Any other label is returned unchanged. |
| Labels.WithUnitsUnchanged | main.py:20-21 | A label is returned unchanged exactly when it has no unit. |
| Labels.WithUnitsIgnoresCase | main.py:13 | Two spellings with the same lower case get the same suffix. |
| Labels.WithUnitsOfChartColumns | main.py:111-112 | The axis titles of the chart columns: `time (s)`, `Unity theoretical (m)`, `Laser experimental (m)`, `Force (N)`, and `dac_bits` unchanged. |
| Labels.LegendLabel | main.py:103 | Definition of the legend text. `Labels.LegendLabelShape` states its shape. |
| Labels.LegendLabelShape | main.py:103 | The legend is the column name capitalised (first letter upper, the rest lower), then ` (freq)`. It depends only on the lower-cased name. |
| Labels.LegendLabelOfChartColumns | main.py:103 | The laser and unity legends keep their spelling, and `dac_bits` is shown as `Dac_bits`. |
| Labels.MarkerFor | main.py:98-101 | `markers[i % len(markers)]` over the seven markers. `Labels.MarkerCycle` states its period. |
| Labels.MarkerCycle | main.py:98-101 | Markers repeat every seven groups, and the seven groups of a cycle get seven different markers. |
| Frequency.IsFrequencyFile | main.py:210 | A file qualifies when its name starts with `frequency_` and ends with `.xlsm`. `Scenarios.NotFrequencyFiles` and `Frequency.LabelOfPlainFile` give names on either side. |
| Frequency.FileKey | main.py:211 | The key is the name with every `.xlsm` removed (`Text.RemoveAll`). |
| Frequency.LabelOfFile | main.py:211-212 | `frecuencia_map.get(archivo.replace(".xlsm", ""))`: the label table applied to the file's key. `Frequency.LabelOfPlainFile` and `Frequency.UnmappedFile` state which files get a label. |
| Frequency.LabelOfKey | main.py:33-37 | `frecuencia_map.get`: `frequency_1`, `frequency_2` and `frequency_3` get `0.25Hz`, `0.125Hz` and `0.05Hz`, and every other key gets no label. |
| Frequency.CsvName | main.py:216 | A per-file CSV name starts with the label and ends in `_promedios.csv`, with nothing between them. A file without a label is written to `None_promedios.csv`. |
| Frequency.LabelOfKeyInjective | main.py:33-37 | Different keys get different labels, and no label reads `None`. |
| Frequency.CsvNameInjective | main.py:216 | Different labels give different CSV names, as long as no label reads `None`. |
| Frequency.CsvNameOfFiles | main.py:210-216 | Two files are written to the same CSV exactly when they have the same key or neither has a label. So the three mapped files never overwrite each other or an unmapped one. |
| Frequency.FirstFileLabel | main.py:33-37 | `frequency_1.xlsm` qualifies, has the key `frequency_1`, and gets `0.25Hz`. |
| Frequency.FirstFileCsvName | main.py:216 | The `0.25Hz` table is written to `0.25Hz_promedios.csv`. |
| Frequency.LabelOfPlainFile | main.py:209-212 | Take `frequency_` + b + `.xlsm`, where `.xlsm` does not occur in b. The file qualifies, its key is `frequency_` + b, and it has a label exactly when b is `1`, `2` or `3`. |
| Frequency.DoubledExtension | main.py:211 | Because every `.xlsm` is removed, `frequency_1.xlsm.xlsm` qualifies and resolves to `0.25Hz`. |
| Frequency.UnmappedFile | main.py:210-216 | `frequency_` + d + `.xlsm` for a character d other than 1, 2 or 3 qualifies, has no label, and is written to `None_promedios.csv`. |
| Charts.ChartsFor | main.py:224-246 | Definition of the chart battery, one `issubset` test per chart plus the overlay. `Charts.ChartsByRequirement` ties it to each chart's required columns. |
| Charts.ChartsByRequirement | main.py:224-246 | A chart is drawn exactly when all the columns it requires are present. The overlay requires none. |
| Charts.ChartsMonotone | main.py:224-246 | More columns never mean fewer charts, and the overlay is always drawn. |
| Charts.ChartCount | main.py:224-246 | A folder with data gets between one and six charts. |
| Charts.AxesAreRequired | main.py:224-245 | Every chart other than the overlay plots exactly the two columns it requires. |
| Charts.AxisTitleUnits | main.py:111-112 | Every x-axis title carries a unit. Every y-axis title does as well, except on `time_vs_dac_bits`. |
| Charts.FileStem | main.py:224-246 | The file name of each chart: `unity_vs_laser`, `time_vs_unity`, `time_vs_laser`, `time_vs_dac_bits`, `laser_vs_force` and `time_vs_experimental_vs_theoretical`. |
| Charts.ChartFiles | main.py:119-120 | Every chart is saved twice, as `<name>.png` and `<name>.pdf`. `Folder.OutputFilesOfCompleted` states the files a folder gets. |
| Charts.XColumn | main.py:224-246 | The x column of each chart: `Unity theoretical` for unity-vs-laser, `Laser experimental` for laser-vs-force, `time` for the rest. `Charts.AxesAreRequired` ties it to the required columns. |
| Charts.YColumn | main.py:224-246 | The y column of each chart but the overlay. `Charts.AxesAreRequired` ties it to the required columns. |
| Charts.AxisTitles | main.py:111-112 | Each axis is titled with `with_units` of its column, and the overlay's y axis reads `Measurements`. `Charts.AxisTitleUnits` states which titles carry a unit. |
| Charts.SeriesLabels | main.py:100-179 | The legend entries one frequency group adds to each chart. `Charts.OverlaySeries` and `Charts.LaserLegendsAgree` state them. |
| Charts.OverlaySeries | main.py:165-189 | The overlay draws two series per group when `time` and both measurement columns exist, and none otherwise. It is drawn either way. |
| Charts.LaserLegendsAgree | main.py:103 | The generic legends of the laser and unity charts coincide with the hand-written one of `laser_vs_force`. `time_vs_dac_bits` shows `Dac_bits (freq)`. |
| Folder.IsEmpty | main.py:215 | `df.empty`: the table has no rows or no columns. `Promedios.NormalizeNotEmpty` shows a returned table never is. |
| Folder.ExportOf | main.py:209-217 | What one directory entry contributes: nothing, or one table with its CSV name and label. `Folder.ExportOfCharacterized` states when. |
| Folder.Collect | main.py:208-217 | `consolidado_total` after the listing: what each entry contributes, in listing order. `Folder.CollectAppend`, `Folder.CollectSnoc` and `Folder.CollectEmptyIff` state it, and `Folder.ProcessFolder` computes it. |
| Folder.Consolidate | main.py:219-220 | `pd.concat` of the collected tables: the union of their columns and every row tagged with its table's label. `Folder.ConsolidateRows` and `Folder.ConsolidateAppend` state it. |
| Folder.FolderSpec | main.py:208-250 | The outcome of one folder: failure when nothing is collected, otherwise the tables, their concatenation and the charts drawn for its columns. `Folder.ProcessFolder` is proved equal to it. |
| Folder.OutputFiles | main.py:216-246 | The files an outcome writes. `Folder.OutputFilesOfCompleted` and `Folder.OutputFilesOfOutcome` state them. |
| Folder.ProcessFolder | main.py:208-221 | The loop over `Processing` appends to `consolidado_total`. The folder outcome it returns equals `FolderSpec`. |
| Folder.CollectAppend | main.py:208-217 | Collecting distributes over a split of the directory listing, so tables stay in discovery order. |
| Folder.CollectSnoc | main.py:209-217 | Processing one more entry appends exactly what that entry contributes. |
| Folder.ExportOfCharacterized | main.py:210-217 | An entry contributes exactly when its name qualifies, its sheet exists and at least two rows survive, whatever its label. Its contribution is the CSV name, the label and the normalized table. |
| Folder.CollectEmptyIff | main.py:208-219 | Nothing is collected exactly when no entry contributes. |
| Folder.NoValidDataIff | main.py:219-250 | The failure outcome occurs exactly when no entry contributes. |
| Folder.ConsolidateRows | main.py:220 | The concatenation has as many rows as the tables together, and each row comes from one table with that table's label. |
| Folder.ConsolidateAppend | main.py:220 | Concatenating two lists of tables concatenates their rows in order and unites their columns. |
| Folder.ConsolidateHasFrequency | main.py:220-246 | A completed folder's concatenation has the `frecuencia` column, and the overlay is among its charts. |
| Folder.OutputFilesOfCompleted | main.py:216-246 | A completed folder writes the consolidated CSV, every collected table's CSV, and both files of every drawn chart. |
| Folder.OutputFilesOfOutcome | main.py:216-250 | A folder without data writes nothing. One with data writes `consolidado_total.csv`, every per-file CSV, and the overlay chart as `.png` and `.pdf`. |
| Scenarios.ExampleShape | main.py:57-75 | The example sheet keeps all four rows, and its header needs no renaming of duplicates. |
| Scenarios.ExampleAssembled | main.py:77-88 | Under the header slide/Experimental/Pressure/time, whatever the data, the columns become `Unity theoretical`, `Laser experimental`, `Pressure`, `time`, `frecuencia`, `Force`. Each row gets the label, and Force is computed from its Pressure cell. |
| Scenarios.ExampleNormalized | main.py:53-90 | The example sheet normalizes to that assembly of its three data rows. |
| Scenarios.ExampleFolderExports | main.py:208-217 | A folder whose one entry is a qualifying workbook holding the example sheet writes one CSV, named after the label (or `None_promedios.csv`). That CSV holds the normalized example table. |
| Scenarios.FirstFileFolder | main.py:208-217 | The same folder with the workbook named `frequency_1.xlsm` writes one table, labelled `0.25Hz`, to `0.25Hz_promedios.csv`. |
| Scenarios.ExampleCharts | main.py:224-246 | The example columns get every chart but `time_vs_dac_bits`. |
| Scenarios.ExampleFolderCharts | main.py:219-246 | That folder consolidates three rows and draws every chart but `time_vs_dac_bits`. |
| Scenarios.NotFrequencyFiles | main.py:210 | `notes.txt`, `frequency_1.xlsx` and `Frequency_1.xlsm` do not qualify. |
| Scenarios.NoFrequencyFiles | main.py:208-250 | A folder with no qualifying name reports failure and writes nothing, whatever its sheets hold. |

## Left out

- Reading the workbook is not modelled: openpyxl's `load_workbook`, the sheet lookup and `ws.values` (main.py:53-57). The caller hands over a `Sheet` that is `Missing` or holds rows of cells. Reading a corrupt file is not modelled.
- Promedios.Normalize: requires the rows to have equal width, which openpyxl guarantees for `ws.values`. Ragged rows are not modelled.
- Header cells that are numbers are spelled by a parameter standing for Python's `str`. Two effects follow. The model counts the number 1 and the text `"1"` as the same name, where Python's dictionary keeps them apart. The unsuffixed column name is kept as text, where Python keeps the number.
- Case mapping is ASCII only: Python's Unicode `lower`/`upper` (special casing, non-Latin letters) is not modelled.
- Cells hold text or numbers only. openpyxl can also return booleans, dates and times (a date header cell, a boolean Pressure cell, say); the model cannot represent them, nor how `str` spells them in a header or how pandas multiplies them.
- Numbers are exact reals. The floating-point product of main.py:88, NaN, and pandas' dtypes are not modelled.
- Promedios.ForceCell: a Pressure cell holding text gives an empty Force cell here. pandas would raise a type error instead.
- The DataFrame is kept as column names plus rows of optional cells. Column-label alignment is not modelled, and the consolidated table is kept only as the union of column names plus every row tagged with its label.
- `pd.concat`'s reindexing of rows under the united column set is not modelled.
- Folder.Consolidate: when the tables' column sets differ, pandas requires each table's column names to be unique, and otherwise raises and stops the run. Two such tables arise when one has a repeated name (the `Headers.DedupNotUnique` shape, or `slide` next to `Unity theoretical`). The model returns a concatenated table there instead of the failure.
- Writing the CSV files is not modelled. Their names are, and so is which ones are written (`Folder.OutputFiles`). Overwriting a file of the same name, for example two unmapped files both written to `None_promedios.csv`, is not modelled either.
- The root-folder walk (main.py:195-206) is not modelled: the `Consolidate_final_results_` prefix, the existence check for `Processing`, `os.makedirs`, and the order `os.listdir` returns. A folder is the sequence of its entries in whatever order they are given.
- The success and failure `print`s are not modelled. The outcome `NoValidData` stands for the failure message.
- matplotlib is not modelled: styles, figure sizes, line styles, limits, titles and rendering. Only which charts are saved, their file names, axis titles, legend texts and the marker rule are.
- The order of `groupby("frecuencia")`, and its dropping of rows whose label is empty, are not modelled. The marker of the i-th group is the markers' rule applied to i.
