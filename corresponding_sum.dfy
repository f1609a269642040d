/**
 Problem 1 of the assignment: `sum_corresponding_elements`.

 The shorter of two integer sequences is zero-padded at its tail until both
 reach the longer length, and the padded sequences are added element by element.
 */
module CorrespondingSum {

  /** `n` zeros: the fill that constant-mode padding appends. */
  function Zeros(n: nat): (r: seq<int>)
    ensures |r| == n
    ensures forall i :: 0 <= i < n ==> r[i] == 0
  {
    if n == 0 then [] else Zeros(n - 1) + [0]
  }

  /**
   Constant-mode padding with pad widths `(0, k)`: nothing before the
   sequence, `k` zeros after it.
   */
  function PadTail(s: seq<int>, k: nat): (r: seq<int>)
    ensures |r| == |s| + k
    ensures r[..|s|] == s
    ensures forall i :: |s| <= i < |r| ==> r[i] == 0
  {
    s + Zeros(k)
  }

  /** Element-wise addition of two sequences of the same length. */
  function AddElementwise(a: seq<int>, b: seq<int>): (r: seq<int>)
    requires |a| == |b|
    ensures |r| == |a|
    ensures forall i :: 0 <= i < |r| ==> r[i] == a[i] + b[i]
  {
    if a == [] then [] else [a[0] + b[0]] + AddElementwise(a[1..], b[1..])
  }

  function Max(x: nat, y: nat): (larger: nat) {
    if x >= y then x else y
  }

  /** The element at index `i`, or 0 past the end: the value of the zero-padded sequence at `i`. */
  function At(s: seq<int>, i: nat): (v: int) {
    if i < |s| then s[i] else 0
  }

  /**
   `sum_corresponding_elements(arr1, arr2)`: pad both inputs at the tail to
   the longer length, then add them.
   */
  function SumCorrespondingElements(arr1: seq<int>, arr2: seq<int>): (r: seq<int>)
    ensures |r| == Max(|arr1|, |arr2|)
    ensures forall i :: 0 <= i < |r| ==> r[i] == At(arr1, i) + At(arr2, i)
  {
    var maxLength := Max(|arr1|, |arr2|);
    var padded1 := PadTail(arr1, maxLength - |arr1|);
    var padded2 := PadTail(arr2, maxLength - |arr2|);
    AddElementwise(padded1, padded2)
  }

  /** Padding keeps the original sequence as a prefix and appends only zeros, up to the target length. */
  lemma {:induction false} PaddingIsAtTheTail(s: seq<int>, maxLength: nat)
    requires |s| <= maxLength
    ensures |PadTail(s, maxLength - |s|)| == maxLength
    ensures forall i :: 0 <= i < maxLength ==> PadTail(s, maxLength - |s|)[i] == At(s, i)
  {
    var p := PadTail(s, maxLength - |s|);
    forall i | 0 <= i < maxLength
      ensures p[i] == At(s, i)
    {
      if i < |s| {
        assert p[..|s|][i] == s[i];
      }
    }
  }

  /** On the positions both inputs have, the result is the plain sum. */
  lemma {:induction false} OverlapIsPlainSum(arr1: seq<int>, arr2: seq<int>, i: nat)
    requires i < |arr1| && i < |arr2|
    ensures i < |SumCorrespondingElements(arr1, arr2)|
    ensures SumCorrespondingElements(arr1, arr2)[i] == arr1[i] + arr2[i]
  {
    var r := SumCorrespondingElements(arr1, arr2);
    assert r[i] == At(arr1, i) + At(arr2, i);
  }

  /**
   When `arr1` is at least as long as `arr2`, the result starts with the
   overlap sums and then copies the rest of `arr1` unchanged.
   */
  lemma {:induction false} LongerTailIsCopied(arr1: seq<int>, arr2: seq<int>)
    requires |arr2| <= |arr1|
    ensures SumCorrespondingElements(arr1, arr2)
         == AddElementwise(arr1[..|arr2|], arr2) + arr1[|arr2|..]
  {
    var r := SumCorrespondingElements(arr1, arr2);
    var e := AddElementwise(arr1[..|arr2|], arr2) + arr1[|arr2|..];
    assert |r| == |e|;
    forall i | 0 <= i < |r|
      ensures r[i] == e[i]
    {
      if i < |arr2| {
        assert e[i] == arr1[..|arr2|][i] + arr2[i];
      } else {
        assert e[i] == arr1[|arr2|..][i - |arr2|];
      }
    }
  }

  /** The operation does not depend on the order of its arguments. */
  lemma {:induction false} Symmetric(arr1: seq<int>, arr2: seq<int>)
    ensures SumCorrespondingElements(arr1, arr2) == SumCorrespondingElements(arr2, arr1)
  {
    var r := SumCorrespondingElements(arr1, arr2);
    var q := SumCorrespondingElements(arr2, arr1);
    forall i | 0 <= i < |r|
      ensures r[i] == q[i]
    {
      assert r[i] == At(arr1, i) + At(arr2, i);
      assert q[i] == At(arr2, i) + At(arr1, i);
    }
  }

  /** An empty input is an identity: the other input comes back unchanged; two empty inputs give an empty result. */
  lemma {:induction false} EmptyIsIdentity(arr: seq<int>)
    ensures SumCorrespondingElements([], arr) == arr
    ensures SumCorrespondingElements(arr, []) == arr
    ensures SumCorrespondingElements([], []) == []
  {
    var r := SumCorrespondingElements([], arr);
    forall i | 0 <= i < |r|
      ensures r[i] == arr[i]
    {
      assert r[i] == At([], i) + At(arr, i);
    }
    Symmetric([], arr);
  }

  /**
   The example call of the assignment, `[1, 2]` and `[4, 5, 6]`: padding the
   first input to `[1, 2, 0]` makes the last sum `0 + 6`, so the result is
   `[5, 7, 6]`, not the `[5, 7, 9]` noted beside the call.
   */
  lemma WorkedExample()
    ensures SumCorrespondingElements([1, 2], [4, 5, 6]) == [5, 7, 6]
    ensures SumCorrespondingElements([1, 2], [4, 5, 6]) != [5, 7, 9]
  {
    var r := SumCorrespondingElements([1, 2], [4, 5, 6]);
    assert |r| == 3;
    assert r[0] == 1 + 4;
    assert r[1] == 2 + 5;
    assert r[2] == 0 + 6;
    assert r == [r[0], r[1], r[2]];
  }
}
