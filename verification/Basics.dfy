/** Notions that several parts of the model share. */
module Basics {
  function Min(a: nat, b: nat): nat { if a < b then a else b }

  /** Does the table hold this value under the key? */
  ghost predicate Maps<K, V>(table: map<K, V>, key: K, value: V) {
    key in table && table[key] == value
  }

  lemma AddDrop<K, V>(m: map<K, V>, k: K, v: V)
    requires k !in m
    ensures m[k := v] - {k} == m
  {
  }

  predicate Distinct<T(==)>(s: seq<T>) {
    forall i, j :: 0 <= i < j < |s| ==> s[i] != s[j]
  }

  function Elements<T(==)>(s: seq<T>): set<T> {
    set x | x in s
  }

  lemma LastElement<T>(s: seq<T>)
    requires |s| > 0
    ensures Elements(s) == Elements(s[..|s| - 1]) + {s[|s| - 1]}
    ensures Distinct(s) ==> Distinct(s[..|s| - 1]) && s[|s| - 1] !in Elements(s[..|s| - 1])
  {
  }

  lemma {:induction false} DistinctSize<T>(s: seq<T>)
    requires Distinct(s)
    ensures |Elements(s)| == |s|
  {
    if |s| == 0 {
    } else {
      var n := |s| - 1;
      LastElement(s);
      DistinctSize(s[..n]);
    }
  }
}
