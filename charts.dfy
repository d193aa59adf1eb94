/** Which charts a trial folder gets, main.py:224-246, and the text on them
    (main.py:95-190). */
module Charts {
  import opened Labels

  datatype Chart =
    | UnityVsLaser | TimeVsUnity | TimeVsLaser | TimeVsDacBits | LaserVsForce
    | TimeVsExperimentalVsTheoretical

  /** The chart battery for the columns of the consolidated table. */
  function ChartsFor(columns: set<string>): set<Chart>
  {
    (if {"Unity theoretical", "Laser experimental"} <= columns then {UnityVsLaser} else {}) +
    (if {"time", "Unity theoretical"} <= columns then {TimeVsUnity} else {}) +
    (if {"time", "Laser experimental"} <= columns then {TimeVsLaser} else {}) +
    (if {"time", "dac_bits"} <= columns then {TimeVsDacBits} else {}) +
    (if {"Laser experimental", "Force"} <= columns then {LaserVsForce} else {}) +
    {TimeVsExperimentalVsTheoretical}
  }

  /** The columns each chart needs before it is drawn; the overlay needs none. */
  function Required(c: Chart): set<string>
  {
    match c
    case UnityVsLaser => {"Unity theoretical", "Laser experimental"}
    case TimeVsUnity => {"time", "Unity theoretical"}
    case TimeVsLaser => {"time", "Laser experimental"}
    case TimeVsDacBits => {"time", "dac_bits"}
    case LaserVsForce => {"Laser experimental", "Force"}
    case TimeVsExperimentalVsTheoretical => {}
  }

  /** A chart is drawn exactly when its required columns are all present. */
  lemma ChartsByRequirement(columns: set<string>, c: Chart)
    ensures c in ChartsFor(columns) <==> Required(c) <= columns
  {
  }

  /** More columns never mean fewer charts, and the overlay is always drawn. */
  lemma ChartsMonotone(a: set<string>, b: set<string>)
    requires a <= b
    ensures ChartsFor(a) <= ChartsFor(b)
    ensures TimeVsExperimentalVsTheoretical in ChartsFor(a)
  {
    forall c | c in ChartsFor(a) ensures c in ChartsFor(b) {
      ChartsByRequirement(a, c);
      ChartsByRequirement(b, c);
    }
  }

  const AllCharts: set<Chart> :=
    {UnityVsLaser, TimeVsUnity, TimeVsLaser, TimeVsDacBits, LaserVsForce, TimeVsExperimentalVsTheoretical}

  /** A folder with data gets between one and six charts. */
  lemma ChartCount(columns: set<string>)
    ensures 1 <= |ChartsFor(columns)| <= 6
  {
    var r := ChartsFor(columns);
    assert r <= AllCharts by {
      forall c | c in r ensures c in AllCharts {
        match c
        case UnityVsLaser =>
        case TimeVsUnity =>
        case TimeVsLaser =>
        case TimeVsDacBits =>
        case LaserVsForce =>
        case TimeVsExperimentalVsTheoretical =>
      }
    }
    AllChartsCount();
    assert {TimeVsExperimentalVsTheoretical} <= r;
    SubsetCardinality(r, AllCharts);
    SubsetCardinality({TimeVsExperimentalVsTheoretical}, r);
  }

  lemma AllChartsCount()
    ensures |AllCharts| == 6
  {
  }

  lemma {:induction false} SubsetCardinality(a: set<Chart>, b: set<Chart>)
    requires a <= b
    ensures |a| <= |b|
    decreases |b|
  {
    if a != {} {
      var x :| x in a;
      SubsetCardinality(a - {x}, b - {x});
    }
  }

  /** The file name of each chart, without extension. */
  function FileStem(c: Chart): string
  {
    match c
    case UnityVsLaser => "unity_vs_laser"
    case TimeVsUnity => "time_vs_unity"
    case TimeVsLaser => "time_vs_laser"
    case TimeVsDacBits => "time_vs_dac_bits"
    case LaserVsForce => "laser_vs_force"
    case TimeVsExperimentalVsTheoretical => "time_vs_experimental_vs_theoretical"
  }

  /** Every chart is saved twice, as a raster and as a vector file. */
  function ChartFiles(c: Chart): set<string>
  {
    {FileStem(c) + ".png", FileStem(c) + ".pdf"}
  }

  /** The columns on the x and y axes; the overlay puts two columns on y. */
  function XColumn(c: Chart): string
  {
    match c
    case UnityVsLaser => "Unity theoretical"
    case LaserVsForce => "Laser experimental"
    case _ => "time"
  }

  function YColumn(c: Chart): string
    requires c != TimeVsExperimentalVsTheoretical
  {
    match c
    case UnityVsLaser => "Laser experimental"
    case TimeVsUnity => "Unity theoretical"
    case TimeVsLaser => "Laser experimental"
    case TimeVsDacBits => "dac_bits"
    case LaserVsForce => "Force"
  }

  /** The axis titles: `with_units` of each column, "Measurements" for the
      overlay's y axis. */
  function AxisTitles(c: Chart): (string, string)
  {
    (WithUnits(XColumn(c)),
     if c == TimeVsExperimentalVsTheoretical then "Measurements" else WithUnits(YColumn(c)))
  }

  /** Each chart reads the columns it requires. */
  lemma AxesAreRequired(c: Chart)
    ensures c != TimeVsExperimentalVsTheoretical ==> Required(c) == {XColumn(c), YColumn(c)}
  {
  }

  /** Every x axis carries a unit; every y axis does too except that of
      time_vs_dac_bits, whose column has none. */
  lemma AxisTitleUnits(c: Chart)
    ensures AxisTitles(c).0 != XColumn(c)
    ensures c != TimeVsExperimentalVsTheoretical ==> (AxisTitles(c).1 == YColumn(c) <==> c == TimeVsDacBits)
  {
    WithUnitsOfChartColumns();
  }

  /** The legend entries one frequency group adds to a chart. */
  function SeriesLabels(c: Chart, columns: set<string>, freq: string): seq<string>
  {
    match c
    case LaserVsForce => ["Laser experimental (" + freq + ")"]
    case TimeVsExperimentalVsTheoretical =>
      if {"time", "Laser experimental", "Unity theoretical"} <= columns
      then ["Laser experimental (" + freq + ")", "Unity theoretical (" + freq + ")"]
      else []
    case _ => [LegendLabel(YColumn(c), freq)]
  }

  /** The overlay draws two series per group when all three columns exist and
      is left empty, but still saved, otherwise. */
  lemma OverlaySeries(columns: set<string>, freq: string)
    ensures |SeriesLabels(TimeVsExperimentalVsTheoretical, columns, freq)| ==
      if {"time", "Laser experimental", "Unity theoretical"} <= columns then 2 else 0
    ensures TimeVsExperimentalVsTheoretical in ChartsFor(columns)
  {
  }

  /** The capitalised legend of the generic charts gives the laser column the
      same entry as the hand-written one of laser_vs_force. */
  lemma LaserLegendsAgree(columns: set<string>, freq: string)
    ensures SeriesLabels(TimeVsLaser, columns, freq) == SeriesLabels(LaserVsForce, columns, freq)
    ensures SeriesLabels(UnityVsLaser, columns, freq) == SeriesLabels(LaserVsForce, columns, freq)
    ensures SeriesLabels(TimeVsDacBits, columns, freq) == ["Dac_bits (" + freq + ")"]
  {
    LegendLabelOfChartColumns(freq);
  }
}
