# Array padding-and-sum and mean thresholding

A Dafny model of the two array utilities in the assignment file
`EXAM/HafsaSultana_Assignment_01.py`. Both of them are pure functions.

- `sum_corresponding_elements(arr1, arr2)` pads the shorter of two
  sequences with zeros at its tail until both have the longer length. It
  then adds the two sequences element by element. This is module
  `CorrespondingSum` in `corresponding_sum.dfy`.
- `threshold_array(input_array)` computes one mean over every element of
  the array. It returns an array of the same shape that holds 1 where the
  element is strictly greater than that mean and 0 elsewhere. This is
  module `Threshold` in `threshold.dfy`. `ThresholdVector` handles
  one-dimensional arrays and `ThresholdMatrix` handles two-dimensional ones
  (a sequence of rows).

Elements are integers. For `n > 0` elements with sum `S`, the test
"`x` is above the mean" is decided exactly as `x * n > S`. The ghost
function `Mean` gives the real-valued mean `S / n`, and `AboveMeanExact`
proves that the two tests agree. The two-dimensional version computes the
sum and the count once, over the flattened array, and compares every row
against them. `ThresholdMatrixFlattens` states this: flattening the result
gives the one-dimensional result on the flattened input.

Where the code and its documentation disagree, the model follows the code:

- The comment beside the example call at line 37 gives `[5, 7, 9]` for
  `[1, 2]` and `[4, 5, 6]`. The code pads `[1, 2]` to `[1, 2, 0]`, so it
  returns `[5, 7, 6]`. `CorrespondingSum.WorkedExample` proves `[5, 7, 6]`
  and that the result is not `[5, 7, 9]`.
- An array without elements is not an error in the code. The mean of no
  elements is NaN, every comparison with NaN is false, and `np.where`
  returns an array of the same (element-free) shape. So the model has no
  precondition and no error case. `NoElementsKeepsShape` states that the
  result equals the input in that case. The statements about the mean
  itself apply only when there is at least one element.

## Model

| member | source | states |
|---|---|---|
| `CorrespondingSum.PadTail` | EXAM/HafsaSultana_Assignment_01.py:25-26 | constant padding with widths `(0, k)` keeps the input as a prefix and is followed by exactly `k` zeros |
| `CorrespondingSum.AddElementwise` | EXAM/HafsaSultana_Assignment_01.py:31 | the sum of two equal-length arrays has their length, and each entry is the sum of the entries at that index |
| `CorrespondingSum.SumCorrespondingElements` | EXAM/HafsaSultana_Assignment_01.py:13-33 | the result has length `max(len(arr1), len(arr2))`; entry `i` is `arr1[i]` (or 0 past its end) plus `arr2[i]` (or 0 past its end) |
| `CorrespondingSum.PaddingIsAtTheTail` | EXAM/HafsaSultana_Assignment_01.py:21-26 | padding to `max_length` reaches exactly that length, and position `i` of the padded array holds the original element or, past the end, 0 |
| `CorrespondingSum.OverlapIsPlainSum` | EXAM/HafsaSultana_Assignment_01.py:25-31 | on an index both inputs have, the result is `arr1[i] + arr2[i]` |
| `CorrespondingSum.LongerTailIsCopied` | EXAM/HafsaSultana_Assignment_01.py:21-31 | when `arr1` is at least as long as `arr2`, the result is the overlap sums followed by the rest of `arr1` unchanged |
| `CorrespondingSum.Symmetric` | EXAM/HafsaSultana_Assignment_01.py:31 | swapping the two arguments does not change the result, whatever their lengths |
| `CorrespondingSum.EmptyIsIdentity` | EXAM/HafsaSultana_Assignment_01.py:21-31 | an empty argument returns the other one unchanged; two empty arguments give an empty result |
| `CorrespondingSum.WorkedExample` | EXAM/HafsaSultana_Assignment_01.py:36-37 | `[1, 2]` and `[4, 5, 6]` give `[5, 7, 6]`, not the `[5, 7, 9]` in the comment |
| `Threshold.Flatten` | EXAM/HafsaSultana_Assignment_01.py:45 | the row-major flattening that the mean ranges over holds exactly as many elements as all rows together |
| `Threshold.MaskRow` | EXAM/HafsaSultana_Assignment_01.py:47-50 | the mask has the row's length, holds only 0 and 1, and is 1 exactly where the element lies strictly above the given mean |
| `Threshold.MaskRows` | EXAM/HafsaSultana_Assignment_01.py:47-50 | every row is masked against the same mean, and the number of rows is kept |
| `Threshold.ThresholdVector` | EXAM/HafsaSultana_Assignment_01.py:43-52 | on a one-dimensional array the result has the input's length and holds only 0 and 1 |
| `Threshold.ThresholdMatrix` | EXAM/HafsaSultana_Assignment_01.py:43-52 | on a two-dimensional array the result has the input's shape (row count and each row's length) and holds only 0 and 1 |
| `Threshold.AboveMeanExact` | EXAM/HafsaSultana_Assignment_01.py:45-47 | for a non-empty array, `x * n > S` holds if and only if `x` is strictly greater than the real mean `S / n` |
| `Threshold.TieMapsToZero` | EXAM/HafsaSultana_Assignment_01.py:47 | an element equal to the mean maps to 0, because the comparison is strict |
| `Threshold.ThresholdVectorIsMeanTest` | EXAM/HafsaSultana_Assignment_01.py:45-50 | a one-dimensional entry is 1 if and only if the element is above the mean, and 0 if and only if it is at most the mean |
| `Threshold.ThresholdMatrixIsMeanTest` | EXAM/HafsaSultana_Assignment_01.py:45-50 | a two-dimensional entry is 1 if and only if the element is above the mean of all elements of the array, and 0 if and only if it is at most that mean |
| `Threshold.ThresholdMatrixFlattens` | EXAM/HafsaSultana_Assignment_01.py:45-47 | the mean is global: flattening the result gives the one-dimensional result on the flattened input |
| `Threshold.ConstantGivesZeros` | EXAM/HafsaSultana_Assignment_01.py:47 | a two-dimensional array whose elements are all equal maps to all zeros |
| `Threshold.ConstantVectorGivesZeros` | EXAM/HafsaSultana_Assignment_01.py:47 | a one-dimensional array whose elements are all equal maps to all zeros |
| `Threshold.OneRowMatrix` | EXAM/HafsaSultana_Assignment_01.py:43-52 | a two-dimensional array of one row gives the one-dimensional result of that row as its single row |
| `Threshold.SomeEntryIsZero` | EXAM/HafsaSultana_Assignment_01.py:45-50 | a non-empty one-dimensional array always has at least one 0 in its mask, since not every element can lie above the mean |
| `Threshold.SomeMatrixEntryIsZero` | EXAM/HafsaSultana_Assignment_01.py:45-50 | a two-dimensional array with at least one element has at least one 0 in its mask |
| `Threshold.NoElementsKeepsShape` | EXAM/HafsaSultana_Assignment_01.py:45-52 | an array with no elements gives a result equal to the input (the same element-free shape) |
| `Threshold.WorkedExample` | EXAM/HafsaSultana_Assignment_01.py:56-64 | for `[[1,2,3],[4,5,6],[7,8,9]]` the mean is 5 and the result is `[[0,0,0],[0,0,1],[1,1,1]]` |

## Left out

- Floating-point and mixed-type inputs: dtype coercion and promotion by `np.array` (lines 15-16) are not modelled. Elements are integers only.
- AddElementwise: the sum is over unbounded integers. NumPy stores the arrays as fixed-width integers (int64, or int32 on some platforms), so `+` at line 31 wraps around silently: `[2**62]` plus `[2**62]` gives `[-2**63]` there, where the model gives `[2**63]`. The contract holds only while every sum fits the integer width.
- SumCorrespondingElements: the same fixed-width wrap-around of line 31 is not modelled; the contract holds only while every entry of the result fits the integer width.
- ThresholdVector: the mean and the comparison are exact. `np.mean` (line 45) adds the elements as float64 and divides in float64, and line 47 compares the elements as float64 too. Rounding can change the mask. `[2**53 + 1, 2**53]` gives `[0, 0]` in NumPy, because the element and the mean both round to 2**53, while the model gives `[1, 0]`. `[0, -2**53, -1, 2**53]` summed left to right loses the `-1` in a partial sum, so NumPy's mean is 0 and entry 0 is 0, while the model gives 1. The contracts match NumPy while the absolute values of the elements add up to less than 2**53. Then every element and every partial sum, in any order of addition, is an exactly representable integer. The rounding error of the division `S / n` also stays below `1 / n`, which is the least distance between a non-integer mean and an integer, so no comparison changes.
- ThresholdMatrix: the same float64 rounding of the sum and the mean (line 45) and of the compared elements (line 47) is not modelled. Its contracts match NumPy under the same condition: the absolute values of all elements add up to less than 2**53.
- Broadcasting and arrays with more than two dimensions: `threshold_array` is modelled for one- and two-dimensional arrays only.
- Ragged rows: `ThresholdMatrix` accepts rows of different lengths. NumPy does not build a numeric two-dimensional array from such rows. The model states the shape per row, so it covers the rectangular case without requiring it.
- The NaN mean and NumPy's runtime warning for an array without elements are not modelled. The model gives the result NumPy returns in that case: an array of the same shape.
- The `print` calls around the example usages (lines 36 and 57) are console output and are left out. The worked examples are lemmas instead.
