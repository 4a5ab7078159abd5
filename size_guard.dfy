/**
 * The size-guard heuristic `testStorageSize`: an estimate, in kilobyte-like units, of how much a
 * Web Storage area holds, and the diagnostics it emits before a write.
 */
module SizeGuard {
  import opened Wrappers

  /**
   * JavaScript's `s.length`: the number of UTF-16 code units of `s`. A Dafny `char` is a Unicode scalar
   * value, and those from U+10000 upwards take a surrogate pair, two code units.
   */
  function Utf16Length(s: string): (n: nat)
    ensures |s| <= n <= 2 * |s|
    decreases |s|
  {
    if s == "" then 0
    else (if s[0] as int >= 0x1_0000 then 2 else 1) + Utf16Length(s[1..])
  }

  /** The length of a concatenation is the sum of the lengths. */
  lemma {:induction false} Utf16LengthConcat(a: string, b: string)
    ensures Utf16Length(a + b) == Utf16Length(a) + Utf16Length(b)
    decreases |a|
  {
    if a != "" {
      assert (a + b)[1..] == a[1..] + b;
      Utf16LengthConcat(a[1..], b);
    } else {
      assert a + b == b;
    }
  }

  /** A character outside the Basic Multilingual Plane, such as U+1F600, counts as two code units. */
  lemma SurrogatePairExample(s: string)
    requires s == "a\U{1F600}"
    ensures |s| == 2 && Utf16Length(s) == 3
  {
    assert s[0] == 'a' && s[1] as int == 0x1F600;
    assert Utf16Length(s[1..][1..]) == 0 by { assert s[1..][1..] == ""; }
    assert Utf16Length(s[1..]) == 2;
  }

  /** Total length, in UTF-16 code units, of the stored values; keys are not counted. */
  ghost function ValuesLength(m: map<string, string>): nat
    decreases |m|
  {
    if m == map[] then 0
    else
      var k :| k in m;
      RemoveOneKey(m, k);
      Utf16Length(m[k]) + ValuesLength(m - {k})
  }

  lemma RemoveOneKey(m: map<string, string>, k: string)
    requires k in m
    ensures |m - {k}| == |m| - 1
  {
    assert (m - {k}).Keys == m.Keys - {k};
  }

  /** The sum does not depend on which key is taken first. */
  lemma {:induction false} ValuesLengthRemove(m: map<string, string>, k: string)
    requires k in m
    ensures ValuesLength(m) == Utf16Length(m[k]) + ValuesLength(m - {k})
    decreases |m|
  {
    var j :| j in m && ValuesLength(m) == Utf16Length(m[j]) + ValuesLength(m - {j});
    if j != k {
      RemoveOneKey(m, j);
      RemoveOneKey(m, k);
      ValuesLengthRemove(m - {j}, k);
      ValuesLengthRemove(m - {k}, j);
      assert (m - {j}) - {k} == (m - {k}) - {j};
    }
  }

  /** Writing `v` under `key` changes the total by the old value's length and the new one's, whatever the key. */
  lemma {:induction false} ValuesLengthUpdate(m: map<string, string>, key: string, v: string)
    ensures ValuesLength(m[key := v]) + (if key in m then Utf16Length(m[key]) else 0) == ValuesLength(m) + Utf16Length(v)
  {
    var m' := m[key := v];
    ValuesLengthRemove(m', key);
    assert m' - {key} == m - {key};
    if key in m {
      ValuesLengthRemove(m, key);
    } else {
      assert m - {key} == m;
    }
  }

  /** The total is zero exactly when every stored value is empty, so the concatenation is empty. */
  lemma {:induction false} ValuesLengthZero(m: map<string, string>)
    ensures ValuesLength(m) == 0 <==> forall k :: k in m ==> m[k] == ""
    decreases |m|
  {
    if m != map[] {
      var k :| k in m;
      ValuesLengthRemove(m, k);
      RemoveOneKey(m, k);
      ValuesLengthZero(m - {k});
      if ValuesLength(m) == 0 {
        forall j | j in m ensures m[j] == "" {
          if j != k {
            assert j in m - {k};
          }
        }
      }
    }
  }

  /** Bits per UTF-16 code unit and bits per kilobyte-like unit. */
  const BitsPerChar: real := 16.0
  const BitsPerUnit: real := 8.0 * 1024.0
  /** Fixed overhead added to every non-empty estimate. */
  const Baseline: real := 3.0

  /**
   * `allStrings ? 3 + ((allStrings.length * 16) / (8 * 1024)) : 0` for a concatenation of `totalLength`
   * UTF-16 code units; the empty string is falsy, so an empty concatenation estimates to zero.
   */
  function Estimate(totalLength: nat): (size: real)
    ensures totalLength == 0 ==> size == 0.0
    ensures totalLength > 0 ==> size == 3.0 + totalLength as real / 512.0
    ensures size >= 0.0
  {
    if totalLength == 0 then 0.0 else Baseline + (totalLength as real * BitsPerChar) / BitsPerUnit
  }

  /** A longer concatenation never estimates smaller. */
  lemma EstimateMonotone(a: nat, b: nat)
    requires a <= b
    ensures Estimate(a) <= Estimate(b)
  {
  }

  /** The three diagnostics of the guard; the first two are warnings, the third is an error. */
  datatype Diagnostic = Past3MB | Past4MB | Past5MB

  datatype Level = Warning | Error

  function LevelOf(d: Diagnostic): Level
  {
    if d == Past5MB then Error else Warning
  }

  /**
   * The diagnostics emitted for estimate `size`, in order. `testStorageSize` tests three conditions
   * one after the other, without `else`, so each may fire on its own.
   */
  function Fired(size: real): (ds: seq<Diagnostic>)
    ensures |ds| <= 1
    ensures ds == [] <==> size < 3000.0
    ensures Past3MB in ds <==> 3000.0 <= size < 4000.0
    ensures Past4MB in ds <==> 4000.0 <= size < 5000.0
    ensures Past5MB in ds <==> size >= 5000.0
    ensures forall d :: d in ds ==> (LevelOf(d) == Error <==> size >= 5000.0)
  {
    (if size >= 3000.0 && size < 4000.0 then [Past3MB] else [])
    + (if size >= 4000.0 && size < 5000.0 then [Past4MB] else [])
    + (if size >= 5000.0 then [Past5MB] else [])
  }

  /** The same bands stated on the total value length, in whole UTF-16 code units. */
  function Band(totalLength: nat): (b: Option<Diagnostic>)
    ensures b.None? <==> Estimate(totalLength) < 3000.0
    ensures b == Some(Past5MB) <==> Estimate(totalLength) >= 5000.0
  {
    if totalLength >= 2558464 then Some(Past5MB)
    else if totalLength >= 2046464 then Some(Past4MB)
    else if totalLength >= 1534464 then Some(Past3MB)
    else None
  }

  /** The diagnostics of the estimate are exactly the band of the total value length. */
  lemma FiredByLength(totalLength: nat)
    ensures Fired(Estimate(totalLength)) == if Band(totalLength).Some? then [Band(totalLength).value] else []
  {
  }
}
