/** Kotlin's `IntProgression` (`a..b`, `a downTo b`, `... step k`), the
    argument of `getRow` and `getColumn`, described by its first element,
    its bound and its non-zero step. */
module Progressions {

  datatype Progression = Progression(first: int, last: int, step: int)

  /** `a..b` */
  function IntRange(a: int, b: int): Progression { Progression(a, b, 1) }

  /** Whether `x` has not yet passed the bound of `p` in the direction of its step. */
  predicate Reaches(p: Progression, x: int) {
    if p.step > 0 then x <= p.last else x >= p.last
  }

  /** `x` lies strictly before `y` in the direction of travel. */
  predicate Before(x: int, y: int, up: bool) {
    if up then x < y else x > y
  }

  /** Distance from `first` to the bound: the termination measure of a loop over `p`. */
  function Span(p: Progression): int {
    if p.step > 0 then p.last - p.first else p.first - p.last
  }

  /** The values a `for` loop over `p` visits, in order. */
  function Elements(p: Progression): seq<int>
    requires p.step != 0
    decreases Span(p)
  {
    if Reaches(p, p.first) then [p.first] + Elements(Progression(p.first + p.step, p.last, p.step))
    else []
  }

  /** Every visited value lies between `first` and `last`. */
  lemma {:induction false} ElementsBounded(p: Progression)
    requires p.step != 0
    ensures forall x :: x in Elements(p) ==>
      if p.step > 0 then p.first <= x <= p.last else p.last <= x <= p.first
    decreases Span(p)
  {
    if Reaches(p, p.first) {
      var q := Progression(p.first + p.step, p.last, p.step);
      ElementsBounded(q);
      assert Elements(p) == [p.first] + Elements(q);
    }
  }

  /** The values are visited strictly in the direction of the step, so none repeats. */
  lemma {:induction false} ElementsOrdered(p: Progression)
    requires p.step != 0
    ensures forall a, b :: 0 <= a < b < |Elements(p)| ==>
      Before(Elements(p)[a], Elements(p)[b], p.step > 0)
    decreases Span(p)
  {
    if Reaches(p, p.first) {
      var q := Progression(p.first + p.step, p.last, p.step);
      ElementsOrdered(q);
      ElementsBounded(q);
      var e := Elements(p);
      assert e == [p.first] + Elements(q);
      forall a, b | 0 <= a < b < |e| ensures Before(e[a], e[b], p.step > 0) {
        if a > 0 {
          assert e[a] == Elements(q)[a - 1] && e[b] == Elements(q)[b - 1];
        } else {
          assert e[b] in Elements(q);
        }
      }
    }
  }

  /** The k-th value visited is `first + k * step`, for every step, so
      `a downTo b` and `a..b step k` are fully described too. */
  lemma {:induction false} ElementsAt(p: Progression)
    requires p.step != 0
    ensures forall k :: 0 <= k < |Elements(p)| ==> Elements(p)[k] == p.first + k * p.step
    decreases Span(p)
  {
    if Reaches(p, p.first) {
      var q := Progression(p.first + p.step, p.last, p.step);
      ElementsAt(q);
      var e := Elements(p);
      assert e == [p.first] + Elements(q);
      forall k | 0 < k < |e| ensures e[k] == p.first + k * p.step {
        assert e[k] == Elements(q)[k - 1] == p.first + p.step + (k - 1) * p.step;
        assert p.step + (k - 1) * p.step == k * p.step;
      }
    }
  }

  /** `a..b` visits exactly a, a+1, ..., b, and nothing when a > b. */
  lemma {:induction false} IntRangeElements(a: int, b: int)
    ensures Elements(IntRange(a, b)) == seq(if a <= b then b - a + 1 else 0, k => a + k)
    decreases b - a
  {
    if a <= b {
      IntRangeElements(a + 1, b);
      assert Elements(IntRange(a, b)) == [a] + Elements(IntRange(a + 1, b));
    }
  }
}
