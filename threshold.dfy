/**
 Problem 2 of the assignment: `threshold_array`.

 One mean is taken over every element of the array; the result has the
 array's shape and holds 1 where the element is strictly greater than that
 mean and 0 everywhere else. Elements are integers, so the comparison
 `x > S / n` (sum `S`, element count `n > 0`) is decided exactly as
 `x * n > S`; `Mean` and `AboveMeanExact` tie the two together.
 */
module Threshold {

  /** Sum of all elements. */
  function Sum(s: seq<int>): (total: int) {
    if s == [] then 0 else Sum(s[..|s| - 1]) + s[|s| - 1]
  }

  /** The elements of a two-dimensional array in row-major order, as `np.mean` sees them. */
  function Flatten(m: seq<seq<int>>): (r: seq<int>)
    ensures |r| == Count(m)
  {
    if m == [] then [] else Flatten(m[..|m| - 1]) + m[|m| - 1]
  }

  /**
   Number of elements over all rows (NumPy's `size`): the sum of the row
   lengths. `FlattenAt` uses it to locate an element inside `Flatten(m)`.
   */
  function Count(m: seq<seq<int>>): (n: nat) {
    if m == [] then 0 else Count(m[..|m| - 1]) + |m[|m| - 1]|
  }

  /** The arithmetic mean, as `np.mean` defines it; undefined without elements. */
  ghost function Mean(s: seq<int>): (mean: real)
    requires |s| > 0
  {
    Sum(s) as real / |s| as real
  }

  /** Whether `x` lies strictly above the mean of `n` elements summing to `total`. */
  predicate AboveMean(x: int, total: int, n: nat) {
    x * n > total
  }

  /**
   The mask of one row against a mean fixed beforehand (given by `total` and
   `n`): 1 where the element lies strictly above it, 0 elsewhere.
   */
  function MaskRow(row: seq<int>, total: int, n: nat): (r: seq<int>)
    ensures |r| == |row|
    ensures forall j :: 0 <= j < |r| ==> r[j] == 0 || r[j] == 1
    ensures forall j :: 0 <= j < |r| ==> (r[j] == 1 <==> AboveMean(row[j], total, n))
  {
    if row == [] then []
    else MaskRow(row[..|row| - 1], total, n) + [if AboveMean(row[|row| - 1], total, n) then 1 else 0]
  }

  /** `threshold_array` on a one-dimensional array. */
  function ThresholdVector(s: seq<int>): (r: seq<int>)
    ensures |r| == |s|
    ensures forall j :: 0 <= j < |r| ==> r[j] == 0 || r[j] == 1
  {
    MaskRow(s, Sum(s), |s|)
  }

  /**
   `threshold_array` on a two-dimensional array: the mean is computed once,
   over all elements, and every row is masked against that same mean.
   */
  function ThresholdMatrix(m: seq<seq<int>>): (r: seq<seq<int>>)
    ensures |r| == |m|
    ensures forall i :: 0 <= i < |r| ==> |r[i]| == |m[i]|
    ensures forall i, j :: 0 <= i < |r| && 0 <= j < |r[i]| ==> r[i][j] == 0 || r[i][j] == 1
  {
    var all := Flatten(m);
    MaskRows(m, Sum(all), |all|)
  }

  /** Every row masked against the same mean. */
  function MaskRows(m: seq<seq<int>>, total: int, n: nat): (r: seq<seq<int>>)
    ensures |r| == |m|
    ensures forall i :: 0 <= i < |r| ==> r[i] == MaskRow(m[i], total, n)
  {
    if m == [] then [] else MaskRows(m[..|m| - 1], total, n) + [MaskRow(m[|m| - 1], total, n)]
  }

  /** The integer test is exactly "strictly greater than the mean". */
  lemma AboveMeanExact(x: int, s: seq<int>)
    requires |s| > 0
    ensures AboveMean(x, Sum(s), |s|) <==> x as real > Mean(s)
  {
    var n := |s| as real;
    var q := Mean(s);
    assert q * n == Sum(s) as real;
    assert x as real * n == (x * |s|) as real;
    if x as real > q {
      assert x as real * n > q * n;
    } else {
      assert x as real * n <= q * n;
    }
  }

  /** An element equal to the mean is not above it: ties map to 0. */
  lemma TieMapsToZero(s: seq<int>, j: nat)
    requires j < |s|
    requires s[j] as real == Mean(s)
    ensures ThresholdVector(s)[j] == 0
  {
    AboveMeanExact(s[j], s);
  }

  /** Each entry of the one-dimensional result is 1 exactly where the element exceeds the mean. */
  lemma ThresholdVectorIsMeanTest(s: seq<int>, j: nat)
    requires j < |s|
    ensures ThresholdVector(s)[j] == 1 <==> s[j] as real > Mean(s)
    ensures ThresholdVector(s)[j] == 0 <==> s[j] as real <= Mean(s)
  {
    AboveMeanExact(s[j], s);
  }

  /** Flattening distributes over row concatenation. */
  lemma {:induction false} FlattenAppend(m: seq<seq<int>>, k: seq<seq<int>>)
    ensures Flatten(m + k) == Flatten(m) + Flatten(k)
    decreases |k|
  {
    if k == [] {
      assert m + k == m;
    } else {
      var k' := k[..|k| - 1];
      assert (m + k)[..|m + k| - 1] == m + k';
      FlattenAppend(m, k');
    }
  }

  /** Masking against a fixed mean commutes with concatenation. */
  lemma {:induction false} MaskRowAppend(a: seq<int>, b: seq<int>, total: int, n: nat)
    ensures MaskRow(a + b, total, n) == MaskRow(a, total, n) + MaskRow(b, total, n)
  {
    var l := MaskRow(a + b, total, n);
    var rr := MaskRow(a, total, n) + MaskRow(b, total, n);
    forall j | 0 <= j < |l|
      ensures l[j] == rr[j]
    {
      if j < |a| {
        assert (a + b)[j] == a[j];
      } else {
        assert (a + b)[j] == b[j - |a|];
      }
    }
  }

  /** The element at row `i`, column `j` sits at the given offset of `Flatten(m)`. */
  lemma {:induction false} FlattenAt(m: seq<seq<int>>, i: nat, j: nat)
    requires i < |m| && j < |m[i]|
    ensures Count(m[..i]) + j < |Flatten(m)|
    ensures Flatten(m)[Count(m[..i]) + j] == m[i][j]
  {
    assert m == m[..i] + [m[i]] + m[i + 1..];
    FlattenAppend(m[..i] + [m[i]], m[i + 1..]);
    FlattenAppend(m[..i], [m[i]]);
    assert Flatten([m[i]]) == m[i] by {
      assert [m[i]][..0] == [];
    }
  }

  /**
   The mean is global: flattening the two-dimensional result gives the
   one-dimensional result on the flattened input, so every row is compared
   with the mean of the whole array and not with a mean of its own.
   */
  lemma {:induction false} ThresholdMatrixFlattens(m: seq<seq<int>>)
    ensures Flatten(ThresholdMatrix(m)) == ThresholdVector(Flatten(m))
  {
    var all := Flatten(m);
    MaskRowsFlatten(m, Sum(all), |all|);
  }

  lemma {:induction false} MaskRowsFlatten(m: seq<seq<int>>, total: int, n: nat)
    ensures Flatten(MaskRows(m, total, n)) == MaskRow(Flatten(m), total, n)
    decreases |m|
  {
    if m != [] {
      var init := m[..|m| - 1];
      var r := MaskRows(m, total, n);
      assert r[..|r| - 1] == MaskRows(init, total, n);
      MaskRowsFlatten(init, total, n);
      MaskRowAppend(Flatten(init), m[|m| - 1], total, n);
    }
  }

  /**
   An entry of the two-dimensional result is 1 if and only if the input
   element is strictly greater than the mean of all elements of the array.
   */
  lemma {:induction false} ThresholdMatrixIsMeanTest(m: seq<seq<int>>, i: nat, j: nat)
    requires i < |m| && j < |m[i]|
    ensures Count(m) > 0
    ensures ThresholdMatrix(m)[i][j] == 1 <==> m[i][j] as real > Mean(Flatten(m))
    ensures ThresholdMatrix(m)[i][j] == 0 <==> m[i][j] as real <= Mean(Flatten(m))
  {
    FlattenAt(m, i, j);
    AboveMeanExact(m[i][j], Flatten(m));
  }

  /** The sum of `n` copies of `c`. */
  lemma {:induction false} SumConstant(s: seq<int>, c: int)
    requires forall j :: 0 <= j < |s| ==> s[j] == c
    ensures Sum(s) == c * |s|
  {
    if s != [] {
      SumConstant(s[..|s| - 1], c);
    }
  }

  /** A constant array is never above its own mean, so its mask is all zeros. */
  lemma {:induction false} ConstantGivesZeros(m: seq<seq<int>>, c: int)
    requires forall i, j :: 0 <= i < |m| && 0 <= j < |m[i]| ==> m[i][j] == c
    ensures forall i, j :: 0 <= i < |m| && 0 <= j < |m[i]| ==> ThresholdMatrix(m)[i][j] == 0
  {
    var all := Flatten(m);
    forall k | 0 <= k < |all|
      ensures all[k] == c
    {
      FlattenConstant(m, c, k);
    }
    SumConstant(all, c);
  }

  lemma {:induction false} FlattenConstant(m: seq<seq<int>>, c: int, k: nat)
    requires forall i, j :: 0 <= i < |m| && 0 <= j < |m[i]| ==> m[i][j] == c
    requires k < |Flatten(m)|
    ensures Flatten(m)[k] == c
    decreases |m|
  {
    var init := m[..|m| - 1];
    if k < |Flatten(init)| {
      FlattenConstant(init, c, k);
    }
  }

  /** A constant one-dimensional array maps to all zeros as well. */
  lemma {:induction false} ConstantVectorGivesZeros(s: seq<int>, c: int)
    requires forall j :: 0 <= j < |s| ==> s[j] == c
    ensures forall j :: 0 <= j < |s| ==> ThresholdVector(s)[j] == 0
  {
    OneRowMatrix(s);
    ConstantGivesZeros([s], c);
  }

  /**
   A one-row array gives the one-dimensional result as its single row: the
   two shapes are thresholded alike.
   */
  lemma {:induction false} OneRowMatrix(s: seq<int>)
    ensures ThresholdMatrix([s]) == [ThresholdVector(s)]
  {
    assert [s][..0] == [];
    assert Flatten([s]) == s;
    var r := ThresholdMatrix([s]);
    assert r[0] == MaskRow(s, Sum(s), |s|);
  }

  /** Every position of `Flatten(m)` holds some element of some row. */
  lemma {:induction false} FlattenEntryIsElement(m: seq<seq<int>>, k: nat)
    requires k < |Flatten(m)|
    ensures exists i, j :: 0 <= i < |m| && 0 <= j < |m[i]| && Flatten(m)[k] == m[i][j]
    decreases |m|
  {
    var init := m[..|m| - 1];
    if k < |Flatten(init)| {
      FlattenEntryIsElement(init, k);
      var i, j :| 0 <= i < |init| && 0 <= j < |init[i]| && Flatten(init)[k] == init[i][j];
      assert m[i] == init[i];
    } else {
      var i, j := |m| - 1, k - |Flatten(init)|;
      assert Flatten(m)[k] == m[i][j];
    }
  }

  /** If every element is above `total / n`, the elements add up to more than `|s| * total / n`. */
  lemma {:induction false} AllAboveBound(s: seq<int>, total: int, n: nat)
    requires forall j :: 0 <= j < |s| ==> AboveMean(s[j], total, n)
    ensures |s| > 0 ==> Sum(s) * n > |s| * total
  {
    if |s| > 1 {
      var init := s[..|s| - 1];
      AllAboveBound(init, total, n);
      calc {
        Sum(s) * n;
        Sum(init) * n + s[|s| - 1] * n;
      >
        (|s| - 1) * total + total;
        |s| * total;
      }
    } else if |s| == 1 {
      assert s[..0] == [];
    }
  }

  /** A non-empty array always has an element that is not above the mean, so some entry is 0. */
  lemma {:induction false} SomeEntryIsZero(s: seq<int>)
    requires |s| > 0
    ensures exists j :: 0 <= j < |s| && ThresholdVector(s)[j] == 0
  {
    var r := ThresholdVector(s);
    if forall j :: 0 <= j < |s| ==> r[j] != 0 {
      assert forall j :: 0 <= j < |s| ==> AboveMean(s[j], Sum(s), |s|);
      AllAboveBound(s, Sum(s), |s|);
      assert false;
    }
  }

  /** A two-dimensional array with at least one element also has a 0 somewhere in its mask. */
  lemma {:induction false} SomeMatrixEntryIsZero(m: seq<seq<int>>)
    requires Count(m) > 0
    ensures exists i, j :: 0 <= i < |m| && 0 <= j < |m[i]| && ThresholdMatrix(m)[i][j] == 0
  {
    var r := ThresholdMatrix(m);
    ThresholdMatrixFlattens(m);
    SomeEntryIsZero(Flatten(m));
    var k :| 0 <= k < |Flatten(m)| && ThresholdVector(Flatten(m))[k] == 0;
    FlattenEntryIsElement(r, k);
    var i, j :| 0 <= i < |r| && 0 <= j < |r[i]| && Flatten(r)[k] == r[i][j];
    assert 0 <= i < |m| && 0 <= j < |m[i]| && r[i][j] == 0;
  }

  /** An array without elements gives a result of the same (empty) shape. */
  lemma {:induction false} NoElementsKeepsShape(m: seq<seq<int>>)
    requires Count(m) == 0
    ensures ThresholdMatrix(m) == m
  {
    var r := ThresholdMatrix(m);
    forall i | 0 <= i < |m|
      ensures r[i] == m[i]
    {
      FlattenEmptyRow(m, i);
    }
  }

  lemma {:induction false} FlattenEmptyRow(m: seq<seq<int>>, i: nat)
    requires Count(m) == 0 && i < |m|
    ensures m[i] == []
    decreases |m|
  {
    if i < |m| - 1 {
      FlattenEmptyRow(m[..|m| - 1], i);
    }
  }

  /** The example call: the mean of 1..9 is 5, and the four elements above it are marked. */
  lemma WorkedExample()
    ensures Mean(Flatten([[1, 2, 3], [4, 5, 6], [7, 8, 9]])) == 5.0
    ensures ThresholdMatrix([[1, 2, 3], [4, 5, 6], [7, 8, 9]]) == [[0, 0, 0], [0, 0, 1], [1, 1, 1]]
  {
    var m := [[1, 2, 3], [4, 5, 6], [7, 8, 9]];
    var all := Flatten(m);
    assert all == [1, 2, 3, 4, 5, 6, 7, 8, 9] by {
      assert m[..2] == [[1, 2, 3], [4, 5, 6]];
      assert m[..2][..1] == [[1, 2, 3]];
      assert m[..2][..1][..0] == m[..0];
    }
    assert Sum(all) == 45 by {
      assert [1][..0] == [];
      assert Sum([1]) == 1;
      assert [1, 2][..1] == [1];
      assert Sum([1, 2]) == 3;
      assert [1, 2, 3][..2] == [1, 2];
      assert Sum([1, 2, 3]) == 6;
      assert [1, 2, 3, 4][..3] == [1, 2, 3];
      assert Sum([1, 2, 3, 4]) == 10;
      assert [1, 2, 3, 4, 5][..4] == [1, 2, 3, 4];
      assert Sum([1, 2, 3, 4, 5]) == 15;
      assert [1, 2, 3, 4, 5, 6][..5] == [1, 2, 3, 4, 5];
      assert Sum([1, 2, 3, 4, 5, 6]) == 21;
      assert [1, 2, 3, 4, 5, 6, 7][..6] == [1, 2, 3, 4, 5, 6];
      assert Sum([1, 2, 3, 4, 5, 6, 7]) == 28;
      assert [1, 2, 3, 4, 5, 6, 7, 8][..7] == [1, 2, 3, 4, 5, 6, 7];
      assert Sum([1, 2, 3, 4, 5, 6, 7, 8]) == 36;
      assert [1, 2, 3, 4, 5, 6, 7, 8, 9][..8] == [1, 2, 3, 4, 5, 6, 7, 8];
      assert Sum([1, 2, 3, 4, 5, 6, 7, 8, 9]) == 45;
    }
    var r := ThresholdMatrix(m);
    assert r[0] == [0, 0, 0];
    assert r[1] == [0, 0, 1];
    assert r[2] == [1, 1, 1];
  }
}
