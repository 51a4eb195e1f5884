/** Variadic integer maximum and minimum (math.go).
    Each is a running accumulator over a non-empty argument list: it starts at the
    first argument and is replaced by every later argument that beats it. */
module MathUtil {

  /** The accumulator `acc` after visiting every element of `rest` in order, keeping
      the current value on a tie (`if max >= number { continue }`). */
  function FoldMax(acc: int, rest: seq<int>): int
    decreases |rest|
  {
    if rest == [] then acc
    else FoldMax(if acc >= rest[0] then acc else rest[0], rest[1..])
  }

  /** The accumulator `acc` after visiting every element of `rest` in order, keeping
      the current value on a tie (`if min <= number { continue }`). */
  function FoldMin(acc: int, rest: seq<int>): int
    decreases |rest|
  {
    if rest == [] then acc
    else FoldMin(if acc <= rest[0] then acc else rest[0], rest[1..])
  }

  /** What `Max(numbers...)` returns. */
  function MaxOf(numbers: seq<int>): int
    requires |numbers| > 0
  {
    FoldMax(numbers[0], numbers[1..])
  }

  /** What `Min(numbers...)` returns. */
  function MinOf(numbers: seq<int>): int
    requires |numbers| > 0
  {
    FoldMin(numbers[0], numbers[1..])
  }

  /** The running maximum ends at the start value or at one of the visited elements, and
      is at least as large as the start value and as each visited element. */
  lemma {:induction false} FoldMaxBounds(acc: int, rest: seq<int>)
    ensures FoldMax(acc, rest) == acc || FoldMax(acc, rest) in rest
    ensures acc <= FoldMax(acc, rest)
    ensures forall j :: 0 <= j < |rest| ==> rest[j] <= FoldMax(acc, rest)
    decreases |rest|
  {
    if rest != [] {
      FoldMaxBounds(if acc >= rest[0] then acc else rest[0], rest[1..]);
      assert forall j :: 1 <= j < |rest| ==> rest[j] == rest[1..][j - 1];
    }
  }

  /** The running minimum ends at the start value or at one of the visited elements, and
      is at most as large as the start value and as each visited element. */
  lemma {:induction false} FoldMinBounds(acc: int, rest: seq<int>)
    ensures FoldMin(acc, rest) == acc || FoldMin(acc, rest) in rest
    ensures FoldMin(acc, rest) <= acc
    ensures forall j :: 0 <= j < |rest| ==> FoldMin(acc, rest) <= rest[j]
    decreases |rest|
  {
    if rest != [] {
      FoldMinBounds(if acc <= rest[0] then acc else rest[0], rest[1..]);
      assert forall j :: 1 <= j < |rest| ==> rest[j] == rest[1..][j - 1];
    }
  }

  /** `MaxOf` is one of its arguments and at least as large as each; and it is the only
      such value. */
  lemma MaxOfIsMaximum(numbers: seq<int>, m: int)
    requires |numbers| > 0
    ensures MaxOf(numbers) in numbers
    ensures forall j :: 0 <= j < |numbers| ==> numbers[j] <= MaxOf(numbers)
    ensures m in numbers && (forall j :: 0 <= j < |numbers| ==> numbers[j] <= m) ==> m == MaxOf(numbers)
  {
    FoldMaxBounds(numbers[0], numbers[1..]);
    assert numbers == [numbers[0]] + numbers[1..];
  }

  /** `MinOf` is one of its arguments and at most as large as each; and it is the only
      such value. */
  lemma MinOfIsMinimum(numbers: seq<int>, m: int)
    requires |numbers| > 0
    ensures MinOf(numbers) in numbers
    ensures forall j :: 0 <= j < |numbers| ==> MinOf(numbers) <= numbers[j]
    ensures m in numbers && (forall j :: 0 <= j < |numbers| ==> m <= numbers[j]) ==> m == MinOf(numbers)
  {
    FoldMinBounds(numbers[0], numbers[1..]);
    assert numbers == [numbers[0]] + numbers[1..];
  }

  /** The two-argument forms used by the snippet window. */
  lemma PairExtremes(a: int, b: int)
    ensures MaxOf([a, b]) == if a >= b then a else b
    ensures MinOf([a, b]) == if a <= b then a else b
  {
    MaxOfIsMaximum([a, b], if a >= b then a else b);
    MinOfIsMinimum([a, b], if a <= b then a else b);
  }

  /** `Max(numbers ...int)`; Go panics on an empty argument list. */
  method Max(numbers: seq<int>) returns (max: int)
    requires |numbers| > 0
    ensures max in numbers
    ensures forall j :: 0 <= j < |numbers| ==> numbers[j] <= max
    ensures max == MaxOf(numbers)
  {
    max := numbers[0];
    for i := 1 to |numbers|
      invariant FoldMax(max, numbers[i..]) == MaxOf(numbers)
    {
      var number := numbers[i];
      if max >= number {
        continue;
      }
      max := number;
    }
    MaxOfIsMaximum(numbers, max);
  }

  /** `Min(numbers ...int)`; Go panics on an empty argument list. */
  method Min(numbers: seq<int>) returns (min: int)
    requires |numbers| > 0
    ensures min in numbers
    ensures forall j :: 0 <= j < |numbers| ==> min <= numbers[j]
    ensures min == MinOf(numbers)
  {
    min := numbers[0];
    for i := 1 to |numbers|
      invariant FoldMin(min, numbers[i..]) == MinOf(numbers)
    {
      var number := numbers[i];
      if min <= number {
        continue;
      }
      min := number;
    }
    MinOfIsMinimum(numbers, min);
  }
}
