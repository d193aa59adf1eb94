/** Plot text of main.py: axis labels with a unit suffix (`with_units`), the
    legend label of the generic chart, and the cycle of seven markers. */
module Labels {
  import opened Options
  import opened Text

  /** `with_units(label)`, main.py:12-21, matching on the lower-cased label. */
  function WithUnits(name: string): (r: string)
    ensures |name| <= |r| && r[..|name|] == name
  {
    var lower := Lower(name);
    if lower == "time" then name + " (s)"
    else if lower == "laser experimental" || lower == "unity theoretical" then name + " (m)"
    else if lower == "force" then name + " (N)"
    else name
  }

  /** The unit table behind `with_units`, keyed by lower-case name. */
  const Units: map<string, string> :=
    map["time" := "s", "laser experimental" := "m", "unity theoretical" := "m", "force" := "N"]

  /** `with_units` is a lookup of the lower-cased name in the unit table: a
      listed name gets " (unit)" after its original spelling, any other name
      is returned unchanged. */
  lemma WithUnitsByTable(name: string)
    ensures Lower(name) in Units ==> WithUnits(name) == name + " (" + Units[Lower(name)] + ")"
    ensures Lower(name) !in Units ==> WithUnits(name) == name
  {
  }

  /** A name is left as it is exactly when it has no unit. */
  lemma WithUnitsUnchanged(name: string)
    ensures WithUnits(name) == name <==> Lower(name) !in Units
  {
    WithUnitsByTable(name);
  }

  /** Matching ignores case: two spellings of one name get the same suffix. */
  lemma WithUnitsIgnoresCase(a: string, b: string)
    requires Lower(a) == Lower(b)
    ensures WithUnits(a)[|a|..] == WithUnits(b)[|b|..]
  {
    WithUnitsByTable(a);
    WithUnitsByTable(b);
  }

  lemma WithUnitsOfTime()
    ensures WithUnits("time") == "time (s)"
  {
    assert Lower("time") == "time";
  }

  lemma WithUnitsOfUnity()
    ensures WithUnits("Unity theoretical") == "Unity theoretical (m)"
  {
    assert Lower("Unity theoretical") == "unity theoretical";
  }

  lemma WithUnitsOfLaser()
    ensures WithUnits("Laser experimental") == "Laser experimental (m)"
  {
    assert Lower("Laser experimental") == "laser experimental";
  }

  lemma WithUnitsOfForce()
    ensures WithUnits("Force") == "Force (N)"
  {
    assert Lower("Force") == "force";
  }

  lemma WithUnitsOfDacBits()
    ensures WithUnits("dac_bits") == "dac_bits"
  {
    assert Lower("dac_bits") == "dac_bits";
  }

  /** The axis labels the charts use. */
  lemma WithUnitsOfChartColumns()
    ensures WithUnits("time") == "time (s)"
    ensures WithUnits("Unity theoretical") == "Unity theoretical (m)"
    ensures WithUnits("Laser experimental") == "Laser experimental (m)"
    ensures WithUnits("Force") == "Force (N)"
    ensures WithUnits("dac_bits") == "dac_bits"
  {
    WithUnitsOfTime();
    WithUnitsOfUnity();
    WithUnitsOfLaser();
    WithUnitsOfForce();
    WithUnitsOfDacBits();
  }

  /** The legend label of main.py:103, `y[0].upper() + y[1:].lower()`
      followed by the frequency in parentheses. */
  function LegendLabel(y: string, freq: string): (r: string)
    requires |y| > 0
  {
    [UpperChar(y[0])] + Lower(y[1..]) + " (" + freq + ")"
  }

  /** The legend shows the column name capitalised: its first letter upper
      case, the rest lower case, then " (freq)". It depends only on the
      lower-cased name. */
  lemma LegendLabelShape(y: string, y': string, freq: string)
    requires |y| > 0 && Lower(y) == Lower(y')
    ensures var r := LegendLabel(y, freq);
            |r| == |y| + |freq| + 3 &&
            r[0] == UpperChar(y[0]) &&
            (forall i :: 1 <= i < |y| ==> r[i] == LowerChar(y[i])) &&
            r[|y|..] == " (" + freq + ")"
    ensures LegendLabel(y, freq) == LegendLabel(y', freq)
  {
    assert |y'| == |y|;
    assert LowerChar(y[0]) == LowerChar(y'[0]);
    LowerCharIdempotent(y[0]);
    LowerCharIdempotent(y'[0]);
    assert UpperChar(y[0]) == UpperChar(y'[0]);
    assert Lower(y[1..]) == Lower(y'[1..]);
  }

  lemma LegendLabelOfLaser(freq: string)
    ensures LegendLabel("Laser experimental", freq) == "Laser experimental (" + freq + ")"
  {
    assert Lower("aser experimental") == "aser experimental";
  }

  lemma LegendLabelOfUnity(freq: string)
    ensures LegendLabel("Unity theoretical", freq) == "Unity theoretical (" + freq + ")"
  {
    assert Lower("nity theoretical") == "nity theoretical";
  }

  lemma LegendLabelOfDacBits(freq: string)
    ensures LegendLabel("dac_bits", freq) == "Dac_bits (" + freq + ")"
  {
    assert Lower("ac_bits") == "ac_bits";
  }

  /** The legends of the generic charts keep the canonical spellings, but
      "dac_bits" is shown as "Dac_bits". */
  lemma LegendLabelOfChartColumns(freq: string)
    ensures LegendLabel("Laser experimental", freq) == "Laser experimental (" + freq + ")"
    ensures LegendLabel("Unity theoretical", freq) == "Unity theoretical (" + freq + ")"
    ensures LegendLabel("dac_bits", freq) == "Dac_bits (" + freq + ")"
  {
    LegendLabelOfLaser(freq);
    LegendLabelOfUnity(freq);
    LegendLabelOfDacBits(freq);
  }

  /** The marker shapes, in order. */
  const Markers: seq<char> := ['o', 's', '^', 'd', 'v', '*', 'p']

  /** `markers[i % len(markers)]` for the i-th frequency group. */
  function MarkerFor(i: nat): char
  {
    Markers[i % |Markers|]
  }

  /** Markers repeat with period seven and the seven groups of one cycle get
      seven different markers. */
  lemma MarkerCycle(i: nat, j: nat)
    ensures MarkerFor(i + 7) == MarkerFor(i)
    ensures i < 7 && j < 7 && i != j ==> MarkerFor(i) != MarkerFor(j)
  {
    assert (i + 7) % 7 == i % 7;
  }
}
