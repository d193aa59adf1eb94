/** Small string facts the script relies on: ASCII case mapping, the decimal
    spelling of a counter in an f-string, prefix/suffix tests and the
    remove-every-occurrence behaviour of `str.replace(old, "")`. */
module Text {

  /** Character case mapping, restricted to ASCII letters. */
  function LowerChar(c: char): char
  {
    if 'A' <= c <= 'Z' then (c as int + 32) as char else c
  }

  function UpperChar(c: char): char
  {
    if 'a' <= c <= 'z' then (c as int - 32) as char else c
  }

  /** `s.lower()` over ASCII: no upper-case letter is left, every other
      character is kept, and each position holds the same letter up to case. */
  function Lower(s: string): (r: string)
    ensures |r| == |s|
    ensures forall i :: 0 <= i < |r| ==> !('A' <= r[i] <= 'Z')
    ensures forall i :: 0 <= i < |s| && !('A' <= s[i] <= 'Z') ==> r[i] == s[i]
    ensures forall i :: 0 <= i < |s| ==> UpperChar(r[i]) == UpperChar(s[i])
  {
    seq(|s|, i requires 0 <= i < |s| => LowerChar(s[i]))
  }

  lemma LowerCharIdempotent(c: char)
    ensures LowerChar(LowerChar(c)) == LowerChar(c)
    ensures UpperChar(LowerChar(c)) == UpperChar(c)
  {
  }

  /** Lower-casing twice is lower-casing once. */
  lemma LowerIdempotent(s: string)
    ensures Lower(Lower(s)) == Lower(s)
  {
    forall i | 0 <= i < |s| ensures Lower(Lower(s))[i] == Lower(s)[i] {
      LowerCharIdempotent(s[i]);
    }
  }

  /** The decimal digit for `d`. */
  function Digit(d: nat): (c: char)
    requires d < 10
    ensures '0' <= c <= '9'
  {
    ('0' as int + d) as char
  }

  predicate IsDigits(s: string)
  {
    forall i :: 0 <= i < |s| ==> '0' <= s[i] <= '9'
  }

  /** The decimal spelling of a natural number, as `f"{n}"` produces it. */
  function ShowNat(n: nat): (s: string)
    ensures |s| >= 1 && IsDigits(s)
  {
    if n < 10 then [Digit(n)] else ShowNat(n / 10) + [Digit(n % 10)]
  }

  /** The value of a string of decimal digits. */
  function ParseNat(s: string): nat
    requires IsDigits(s)
  {
    if s == [] then 0
    else ParseNat(s[..|s| - 1]) * 10 + (s[|s| - 1] as int - '0' as int)
  }

  /** Reading back a spelled number gives the number. */
  lemma {:induction false} ParseShowNat(n: nat)
    ensures ParseNat(ShowNat(n)) == n
  {
    if n >= 10 {
      var s := ShowNat(n);
      assert s[..|s| - 1] == ShowNat(n / 10);
      ParseShowNat(n / 10);
    }
  }

  /** Different counters are spelled differently. */
  lemma ShowNatInjective(m: nat, n: nat)
    requires ShowNat(m) == ShowNat(n)
    ensures m == n
  {
    ParseShowNat(m);
    ParseShowNat(n);
  }

  /** A spelled number never contains an underscore. */
  lemma ShowNatNoUnderscore(n: nat)
    ensures '_' !in ShowNat(n)
  {
    var s := ShowNat(n);
    forall i | 0 <= i < |s| ensures s[i] != '_' {
      assert '0' <= s[i] <= '9';
    }
  }

  /** Two names without an underscore, each followed by `_` and a tail,
      are equal exactly when both parts are equal. */
  lemma SplitAtUnderscore(a: string, x: string, b: string, y: string)
    requires '_' !in a && '_' !in b
    requires a + "_" + x == b + "_" + y
    ensures a == b && x == y
  {
    var s := a + "_" + x;
    assert |a| == |b| by {
      assert s[|a|] == '_' && (b + "_" + y)[|b|] == '_';
    }
    assert a == s[..|a|] == b;
    assert x == s[|a| + 1..] == y;
  }

  predicate StartsWith(s: string, p: string)
  {
    |p| <= |s| && s[..|p|] == p
  }

  predicate EndsWith(s: string, p: string)
  {
    |p| <= |s| && s[|s| - |p|..] == p
  }

  /** `p` occurs somewhere in `s`. */
  predicate Occurs(s: string, p: string)
    decreases |s|
  {
    |p| <= |s| && (s[..|p|] == p || (|s| > 0 && Occurs(s[1..], p)))
  }

  /** `s.replace(p, "")`: scanning from the left, every non-overlapping
      occurrence of `p` is cut out, and the scan resumes after the cut. */
  function RemoveAll(s: string, p: string): (r: string)
    requires |p| > 0
    ensures |r| <= |s|
    decreases |s|
  {
    if |s| < |p| then s
    else if s[..|p|] == p then RemoveAll(s[|p|..], p)
    else [s[0]] + RemoveAll(s[1..], p)
  }

  /** The first character of `p` does not appear again inside `p`, so an
      occurrence of `p` cannot start inside another one. */
  predicate FirstCharUnique(p: string)
  {
    |p| > 0 && forall k :: 0 < k < |p| ==> p[k] != p[0]
  }

  /** A string in which `p` does not occur is left as it is. */
  lemma {:induction false} RemoveAllNoOccurrence(s: string, p: string)
    requires |p| > 0 && !Occurs(s, p)
    ensures RemoveAll(s, p) == s
    decreases |s|
  {
    if |s| >= |p| {
      assert s[..|p|] != p;
      RemoveAllNoOccurrence(s[1..], p);
      assert s == [s[0]] + s[1..];
    }
  }

  /** Characters that cannot start an occurrence pass through unchanged. */
  lemma {:induction false} RemoveAllSkipsPrefix(c: string, s: string, p: string)
    requires |p| > 0 && p[0] !in c
    ensures RemoveAll(c + s, p) == c + RemoveAll(s, p)
    decreases |c|
  {
    if c != [] {
      var t := c + s;
      if |t| < |p| {
        assert RemoveAll(s, p) == s;
      } else {
        assert t[0] == c[0] != p[0];
        assert t[..|p|] != p;
        assert t[1..] == c[1..] + s;
        RemoveAllSkipsPrefix(c[1..], s, p);
        assert [c[0]] + c[1..] == c;
      }
    } else {
      assert c + s == s;
    }
  }

  /** Appending one more copy of `p` changes nothing once `p` is removed
      (when no occurrence of `p` can overlap the appended copy). */
  lemma {:induction false} RemoveAllAppendPattern(b: string, p: string)
    requires FirstCharUnique(p)
    ensures RemoveAll(b + p, p) == RemoveAll(b, p)
    decreases |b|
  {
    var s := b + p;
    if b == [] {
      assert s[..|p|] == p && s[|p|..] == [];
    } else if |b| < |p| {
      assert s[|b|] == p[0];
      assert s[..|p|] != p by {
        assert s[..|p|][|b|] == p[0] != p[|b|];
      }
      assert s[1..] == b[1..] + p;
      RemoveAllAppendPattern(b[1..], p);
      assert RemoveAll(b[1..], p) == b[1..];
      assert [b[0]] + b[1..] == b;
    } else if b[..|p|] == p {
      assert s[..|p|] == p;
      assert s[|p|..] == b[|p|..] + p;
      RemoveAllAppendPattern(b[|p|..], p);
    } else {
      assert s[..|p|] == b[..|p|];
      assert s[1..] == b[1..] + p;
      RemoveAllAppendPattern(b[1..], p);
    }
  }
}
