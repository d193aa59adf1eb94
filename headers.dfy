/** Header deduplication of `leer_promedios`: every header cell is turned
    into a column name, an empty cell into "Unnamed", and the k-th repeat of
    a name into `name_k`, with a dictionary counting the repeats. */
module Headers {
  import opened Options
  import opened Text

  /** The placeholder for an empty header cell. */
  const Unnamed := "Unnamed"

  /** The name a header cell is counted under. */
  function Key(h: Option<string>): string
  {
    match h
    case None => Unnamed
    case Some(s) => s
  }

  function Keys(hs: seq<Option<string>>): (ks: seq<string>)
    ensures |ks| == |hs|
    ensures forall i :: 0 <= i < |hs| ==> ks[i] == Key(hs[i])
  {
    seq(|hs|, i requires 0 <= i < |hs| => Key(hs[i]))
  }

  /** How many times `k` occurs in `ks`. */
  function Count(ks: seq<string>, k: string): nat
  {
    if ks == [] then 0
    else Count(ks[..|ks| - 1], k) + (if ks[|ks| - 1] == k then 1 else 0)
  }

  /** The name emitted for a key already seen `n` times before. */
  function Suffixed(k: string, n: nat): string
  {
    if n == 0 then k else k + "_" + ShowNat(n)
  }

  /** Reference definition of the deduplicated header: position i carries its
      key, suffixed with the number of earlier positions holding the same key. */
  function Dedup(ks: seq<string>): seq<string>
  {
    seq(|ks|, i requires 0 <= i < |ks| => Suffixed(ks[i], Count(ks[..i], ks[i])))
  }

  lemma CountSnoc(ks: seq<string>, x: string, k: string)
    ensures Count(ks + [x], k) == Count(ks, k) + (if x == k then 1 else 0)
  {
    assert (ks + [x])[..|ks|] == ks;
  }

  /** A key has been counted at least once exactly when it occurs. */
  lemma {:induction false} CountPositive(ks: seq<string>, k: string)
    ensures Count(ks, k) > 0 <==> k in ks
  {
    if ks != [] {
      var init := ks[..|ks| - 1];
      CountPositive(init, k);
      assert ks == init + [ks[|ks| - 1]];
    }
  }

  /** Counting over a longer prefix never gives less. */
  lemma {:induction false} CountPrefixMonotone(ks: seq<string>, a: nat, b: nat, k: string)
    requires a <= b <= |ks|
    ensures Count(ks[..a], k) <= Count(ks[..b], k)
    decreases b - a
  {
    if a < b {
      CountPrefixMonotone(ks, a, b - 1, k);
      assert ks[..b][..b - 1] == ks[..b - 1];
    }
  }

  /** An occurrence at position i is counted by every prefix reaching past i. */
  lemma CountAfterOccurrence(ks: seq<string>, i: nat, j: nat)
    requires i < j <= |ks|
    ensures Count(ks[..j], ks[i]) > Count(ks[..i], ks[i])
  {
    assert ks[..i + 1][..i] == ks[..i];
    CountPrefixMonotone(ks, i + 1, j, ks[i]);
  }

  lemma DedupSnoc(ks: seq<string>, x: string)
    ensures Dedup(ks + [x]) == Dedup(ks) + [Suffixed(x, Count(ks, x))]
  {
    var s := ks + [x];
    forall i | 0 <= i < |ks| ensures s[..i] == ks[..i] {}
    assert s[..|ks|] == ks;
  }

  /** The header loop, main.py:65-75: `col_count` starts empty; a name not
      yet in it is entered with 0 and emitted as it is, a name already in it
      has its counter raised and is emitted with the counter as suffix. The
      result is the reference definition, and the final counter holds exactly
      the names seen, each with its number of repeats. */
  method Deduplicate(columns: seq<Option<string>>) returns (finalCols: seq<string>, colCount: map<string, nat>)
    ensures finalCols == Dedup(Keys(columns))
    ensures |finalCols| == |columns|
    ensures forall k :: k in colCount <==> k in Keys(columns)
    ensures forall k :: k in colCount ==> colCount[k] + 1 == Count(Keys(columns), k)
  {
    ghost var ks := Keys(columns);
    colCount := map[];
    finalCols := [];
    for i := 0 to |columns|
      invariant finalCols == Dedup(ks[..i])
      invariant forall k :: k in colCount <==> Count(ks[..i], k) > 0
      invariant forall k :: k in colCount ==> colCount[k] + 1 == Count(ks[..i], k)
    {
      var col := match columns[i] case None => Unnamed case Some(s) => s;
      assert ks[..i + 1] == ks[..i] + [col];
      CountSnoc(ks[..i], col, col);
      DedupSnoc(ks[..i], col);
      forall k ensures Count(ks[..i + 1], k) == Count(ks[..i], k) + (if col == k then 1 else 0) {
        CountSnoc(ks[..i], col, k);
      }
      if col !in colCount {
        colCount := colCount[col := 0];
        finalCols := finalCols + [col];
      } else {
        colCount := colCount[col := colCount[col] + 1];
        finalCols := finalCols + [col + "_" + ShowNat(colCount[col])];
      }
    }
    assert ks[..|columns|] == ks;
    forall k ensures k in colCount <==> k in ks {
      CountPositive(ks, k);
    }
  }

  /** A name seen for the first time is emitted unchanged; its k-th repeat
      (k >= 1) is emitted as `name_k`. */
  lemma DedupNaming(ks: seq<string>, i: nat)
    requires i < |ks|
    ensures |Dedup(ks)| == |ks|
    ensures ks[i] !in ks[..i] ==> Dedup(ks)[i] == ks[i]
    ensures ks[i] in ks[..i] ==>
      Count(ks[..i], ks[i]) >= 1 && Dedup(ks)[i] == ks[i] + "_" + ShowNat(Count(ks[..i], ks[i]))
  {
    CountPositive(ks[..i], ks[i]);
  }

  /** A header with no repeated name is kept as it is. */
  lemma DedupDistinct(ks: seq<string>)
    requires forall i, j :: 0 <= i < j < |ks| ==> ks[i] != ks[j]
    ensures Dedup(ks) == ks
  {
    forall i | 0 <= i < |ks| ensures Dedup(ks)[i] == ks[i] {
      CountPositive(ks[..i], ks[i]);
    }
  }

  lemma {:induction false} CountConstant(n: nat, k: string)
    ensures Count(seq(n, _ => k), k) == n
  {
    if n > 0 {
      assert seq(n, _ => k)[..n - 1] == seq(n - 1, _ => k);
      CountConstant(n - 1, k);
    }
  }

  /** A run of empty header cells becomes "Unnamed", "Unnamed_1", "Unnamed_2", ... */
  lemma DedupEmptyHeaders(n: nat, i: nat)
    requires i < n
    ensures |Dedup(Keys(seq(n, _ => None)))| == n
    ensures Dedup(Keys(seq(n, _ => None)))[i] == if i == 0 then "Unnamed" else "Unnamed_" + ShowNat(i)
  {
    var ks := Keys(seq(n, _ => None));
    assert ks[..i] == seq(i, _ => Unnamed);
    CountConstant(i, Unnamed);
  }

  /** An empty cell and a cell reading "Unnamed" count as the same name. */
  lemma DedupUnnamedCollision()
    ensures Dedup(Keys([Some("Unnamed"), None])) == ["Unnamed", "Unnamed_1"]
  {
    var ks := Keys([Some("Unnamed"), None]);
    assert ks == ["Unnamed", "Unnamed"];
    CountSnoc([], "Unnamed", "Unnamed");
    assert ks[..1] == [] + ["Unnamed"];
    assert ShowNat(1) == "1";
    var r := Dedup(ks);
    assert r[1] == "Unnamed" + "_" + "1" == "Unnamed_1";
    assert r == [r[0], r[1]];
  }

  /** The example header ["time", "value", "value"]. */
  lemma DedupRepeatedValue()
    ensures Dedup(["time", "value", "value"]) == ["time", "value", "value_1"]
  {
    var ks := ["time", "value", "value"];
    CountSnoc([], "time", "value");
    CountSnoc(["time"], "value", "value");
    CountSnoc([], "time", "time");
    assert ks[..0] == [] && ks[..1] == [] + ["time"] && ks[..2] == ["time"] + ["value"];
    assert ShowNat(1) == "1";
    var r := Dedup(ks);
    assert r[2] == "value" + "_" + "1" == "value_1";
    assert r == [r[0], r[1], r[2]];
  }

  /** The loop does not make names unique: a raw "value_1" collides with the
      generated suffix of the second "value". */
  lemma DedupNotUnique()
    ensures Dedup(["value", "value_1", "value"]) == ["value", "value_1", "value_1"]
    ensures Dedup(["value", "value_1", "value"])[1] == Dedup(["value", "value_1", "value"])[2]
  {
    var ks := ["value", "value_1", "value"];
    CountSnoc([], "value", "value");
    CountSnoc([], "value", "value_1");
    CountSnoc(["value"], "value_1", "value");
    assert ks[..0] == [] && ks[..1] == [] + ["value"] && ks[..2] == ["value"] + ["value_1"];
    assert ShowNat(1) == "1";
    var r := Dedup(ks);
    assert r[2] == "value" + "_" + "1" == "value_1";
    assert r == [r[0], r[1], r[2]];
  }

  /** When no raw name contains an underscore, the names emitted are pairwise different. */
  lemma DedupUniqueWithoutUnderscores(ks: seq<string>)
    requires forall i :: 0 <= i < |ks| ==> '_' !in ks[i]
    ensures forall i, j :: 0 <= i < j < |ks| ==> Dedup(ks)[i] != Dedup(ks)[j]
  {
    var r := Dedup(ks);
    forall i, j | 0 <= i < j < |ks| ensures r[i] != r[j] {
      var ci, cj := Count(ks[..i], ks[i]), Count(ks[..j], ks[j]);
      if r[i] == r[j] {
        if cj == 0 {
          assert ks[i] == ks[j];
          assert ks[i] == ks[..j][i];
          CountPositive(ks[..j], ks[j]);
        } else {
          SplitAtUnderscore(ks[i], ShowNat(ci), ks[j], ShowNat(cj));
          ShowNatInjective(ci, cj);
          CountAfterOccurrence(ks, i, j);
        }
      }
    }
  }

  /** A name without an underscore (such as "Pressure", "Force" or
      "frecuencia") appears at most once in the deduplicated header, and only
      where it was written in the raw header. */
  lemma DedupPlainNameAtMostOnce(ks: seq<string>, n: string, i: nat, j: nat)
    requires '_' !in n
    requires i < j < |ks| && Dedup(ks)[i] == n
    ensures ks[i] == n
    ensures Dedup(ks)[j] != n
  {
    if Dedup(ks)[j] == n {
      assert ks[i] == ks[..j][i];
      CountPositive(ks[..j], ks[j]);
    }
  }
}
