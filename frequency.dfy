/** Choosing the frequency files of a Processing folder and their labels,
    main.py:33-37 and main.py:209-216. */
module Frequency {
  import opened Options
  import opened Text

  const FilePrefix := "frequency_"
  const Extension := ".xlsm"

  /** `archivo.startswith("frequency_") and archivo.endswith(".xlsm")`. */
  predicate IsFrequencyFile(name: string)
  {
    StartsWith(name, FilePrefix) && EndsWith(name, Extension)
  }

  /** `archivo.replace(".xlsm", "")`: every occurrence is removed, not only
      the extension. */
  function FileKey(name: string): string
  {
    RemoveAll(name, Extension)
  }

  /** `frecuencia_map`. */
  const FrequencyMap: map<string, string> :=
    map["frequency_1" := "0.25Hz", "frequency_2" := "0.125Hz", "frequency_3" := "0.05Hz"]

  /** `frecuencia_map.get(clave)`: the three keys of the table get their
      labels, every other key `None`. */
  function LabelOfKey(key: string): (r: Option<string>)
    ensures key == "frequency_1" ==> r == Some("0.25Hz")
    ensures key == "frequency_2" ==> r == Some("0.125Hz")
    ensures key == "frequency_3" ==> r == Some("0.05Hz")
    ensures r.Some? ==> key == "frequency_1" || key == "frequency_2" || key == "frequency_3"
  {
    if key in FrequencyMap then Some(FrequencyMap[key]) else None
  }

  function LabelOfFile(name: string): Option<string>
  {
    LabelOfKey(FileKey(name))
  }

  const CsvSuffix := "_promedios.csv"

  /** `f"{frecuencia}_promedios.csv"`: the label, then "_promedios.csv"; an
      unmapped file is written as "None_promedios.csv". */
  function CsvName(freq: Option<string>): (r: string)
    ensures EndsWith(r, CsvSuffix)
    ensures freq.Some? ==> StartsWith(r, freq.value) && |r| == |freq.value| + |CsvSuffix|
    ensures freq.None? ==> r == "None_promedios.csv"
  {
    (match freq case Some(l) => l case None => "None") + CsvSuffix
  }

  /** Different keys of the table get different labels, and no label reads
      "None". */
  lemma LabelOfKeyInjective(k1: string, k2: string)
    ensures LabelOfKey(k1).Some? ==> LabelOfKey(k1).value != "None"
    ensures LabelOfKey(k1).Some? && LabelOfKey(k1) == LabelOfKey(k2) ==> k1 == k2
  {
  }

  /** The CSV name determines the label, as long as no label reads "None". */
  lemma CsvNameInjective(a: Option<string>, b: Option<string>)
    requires a != Some("None") && b != Some("None")
    ensures CsvName(a) == CsvName(b) <==> a == b
  {
    if CsvName(a) == CsvName(b) {
      var r := CsvName(a);
      var m := |r| - |CsvSuffix|;
      assert r[..m] == (match a case Some(l) => l case None => "None");
      assert r[..m] == (match b case Some(l) => l case None => "None");
    }
  }

  /** Two files are written to the same CSV exactly when they have the same
      key or neither has a label: the three mapped files never overwrite each
      other or an unmapped one. */
  lemma CsvNameOfFiles(n1: string, n2: string)
    ensures CsvName(LabelOfFile(n1)) == CsvName(LabelOfFile(n2)) <==>
            FileKey(n1) == FileKey(n2) || (LabelOfFile(n1).None? && LabelOfFile(n2).None?)
  {
    LabelOfKeyInjective(FileKey(n1), FileKey(n2));
    LabelOfKeyInjective(FileKey(n2), FileKey(n1));
    CsvNameInjective(LabelOfFile(n1), LabelOfFile(n2));
  }

  lemma ExtensionFirstCharUnique()
    ensures FirstCharUnique(Extension)
  {
  }

  /** For a file named "frequency_" + b + ".xlsm" where ".xlsm" does not occur
      in b, the file qualifies, its key is "frequency_" + b, and it has a
      label exactly when b is "1", "2" or "3". */
  lemma LabelOfPlainFile(b: string)
    requires !Occurs(b, Extension)
    ensures IsFrequencyFile(FilePrefix + b + Extension)
    ensures FileKey(FilePrefix + b + Extension) == FilePrefix + b
    ensures LabelOfFile(FilePrefix + b + Extension).Some? <==> b == "1" || b == "2" || b == "3"
  {
    var name := FilePrefix + b + Extension;
    assert name[..|FilePrefix|] == FilePrefix;
    assert name[|name| - |Extension|..] == Extension;
    ExtensionFirstCharUnique();
    assert name == FilePrefix + (b + Extension);
    RemoveAllSkipsPrefix(FilePrefix, b + Extension, Extension);
    RemoveAllAppendPattern(b, Extension);
    RemoveAllNoOccurrence(b, Extension);
    var key := FilePrefix + b;
    if b == "1" { assert key == "frequency_1"; }
    if b == "2" { assert key == "frequency_2"; }
    if b == "3" { assert key == "frequency_3"; }
    if key in FrequencyMap {
      assert key[|FilePrefix|..] == b;
    }
  }

  /** "frequency_1.xlsm" has the key "frequency_1" and the label 0.25 Hz. */
  lemma FirstFileLabel()
    ensures IsFrequencyFile(FilePrefix + "1" + Extension)
    ensures FileKey(FilePrefix + "1" + Extension) == "frequency_1"
    ensures LabelOfFile(FilePrefix + "1" + Extension) == Some("0.25Hz")
  {
    assert !Occurs("1", Extension);
    LabelOfPlainFile("1");
    assert FilePrefix + "1" == "frequency_1";
  }

  /** The 0.25 Hz table is written to "0.25Hz_promedios.csv". */
  lemma FirstFileCsvName()
    ensures CsvName(Some("0.25Hz")) == "0.25Hz_promedios.csv"
  {
  }

  /** Because every ".xlsm" is removed, a doubled extension still resolves:
      "frequency_1.xlsm.xlsm" is read as the 0.25 Hz file. */
  lemma DoubledExtension()
    ensures IsFrequencyFile("frequency_1.xlsm.xlsm")
    ensures LabelOfFile("frequency_1.xlsm.xlsm") == Some("0.25Hz")
  {
    var base := FilePrefix + "1" + Extension;
    var name := base + Extension;
    assert "frequency_1.xlsm.xlsm" == name;
    assert IsFrequencyFile(name) by {
      assert name[..|FilePrefix|] == FilePrefix;
      assert name[|name| - |Extension|..] == Extension;
    }
    assert FileKey(name) == "frequency_1" by {
      ExtensionFirstCharUnique();
      RemoveAllAppendPattern(base, Extension);
      LabelOfPlainFile("1");
    }
  }

  /** A qualifying file outside the table still gets processed, under no
      label: "frequency_" + d + ".xlsm" for any character d other than 1, 2
      and 3, "frequency_4.xlsm" say, is written to "None_promedios.csv". */
  lemma UnmappedFile(d: char)
    requires d != '1' && d != '2' && d != '3'
    ensures IsFrequencyFile(FilePrefix + [d] + Extension)
    ensures LabelOfFile(FilePrefix + [d] + Extension) == None
    ensures CsvName(LabelOfFile(FilePrefix + [d] + Extension)) == "None_promedios.csv"
  {
    assert !Occurs([d], Extension);
    LabelOfPlainFile([d]);
    assert [d] != "1" && [d] != "2" && [d] != "3";
  }
}
