/** Shared vocabulary of the money page's series engine: values that may be
    absent, dated points of a per-code history, the evenly spaced sampling
    grid, and the forward price cursor used by every valuation pass. */
module Series {

  /** A series value. `None` stands for the source's NaN / undefined. */
  datatype Option<T> = None | Some(value: T)

  /** One dated record of a per-code history, `{ date, value }`; `date` is a
      time value in milliseconds. */
  datatype Point = Point(date: int, value: real)

  /** Dates never decrease along the history. */
  predicate Ascending(ps: seq<Point>) {
    forall i, j :: 0 <= i < j < |ps| ==> ps[i].date <= ps[j].date
  }

  /** Sampling instants never decrease along the grid. */
  predicate NonDecreasing(xs: seq<real>) {
    forall i, j :: 0 <= i < j < |xs| ==> xs[i] <= xs[j]
  }

  /** Sampling instants strictly increase along the grid. */
  predicate StrictlyAscending(xs: seq<real>) {
    forall i, j :: 0 <= i < j < |xs| ==> xs[i] < xs[j]
  }

  /** Truncation toward zero: `Math.trunc`, and the time value `new Date(x)`
      keeps of a fractional `x`. */
  function Trunc(x: real): (t: int)
    ensures 0.0 <= x ==> t as real <= x < t as real + 1.0
    ensures x < 0.0 ==> t as real - 1.0 < x <= t as real
  {
    if x >= 0.0 then x.Floor else -((-x).Floor)
  }

  /** Sum of the values of a history, accumulated in order. */
  function SumValues(ps: seq<Point>): real {
    if |ps| == 0 then 0.0 else SumValues(ps[..|ps| - 1]) + ps[|ps| - 1].value
  }

  /** `[...Array(n)].map((_, i) => xmin + i * dx)` with `dx = (xmax - xmin) / (n - 1)`,
      computed over the reals. */
  function EvenGrid(xmin: real, xmax: real, n: nat): (xs: seq<real>)
    requires n >= 2
    ensures |xs| == n
    ensures xs[0] == xmin && xs[n - 1] == xmax
    ensures forall i :: 0 <= i < n - 1 ==> xs[i + 1] - xs[i] == (xmax - xmin) / (n - 1) as real
    ensures xmin < xmax ==> StrictlyAscending(xs)
  {
    var dx := (xmax - xmin) / (n - 1) as real;
    EvenGridFacts(xmin, xmax, n, dx);
    seq(n, i => xmin + i as real * dx)
  }

  lemma EvenGridFacts(xmin: real, xmax: real, n: nat, dx: real)
    requires n >= 2 && dx == (xmax - xmin) / (n - 1) as real
    ensures var xs := seq(n, i => xmin + i as real * dx);
      && xs[n - 1] == xmax
      && (forall i :: 0 <= i < n - 1 ==> xs[i + 1] - xs[i] == dx)
      && (xmin < xmax ==> StrictlyAscending(xs))
  {
    var xs := seq(n, i => xmin + i as real * dx);
    assert xs[n - 1] == xmax by {
      assert (n - 1) as real * dx == xmax - xmin;
    }
    forall i | 0 <= i < n - 1 ensures xs[i + 1] - xs[i] == dx {
      StepIsDx(xmin, i, dx);
    }
    if xmin < xmax {
      assert dx > 0.0 by {
        assert dx * (n - 1) as real == xmax - xmin;
      }
      forall i, j | 0 <= i < j < n ensures xs[i] < xs[j] {
        GridAscendingAt(xmin, n, dx, i, j);
      }
    }
  }

  lemma StepIsDx(xmin: real, i: int, dx: real)
    ensures (xmin + (i + 1) as real * dx) - (xmin + i as real * dx) == dx
  {
    assert (i + 1) as real * dx == i as real * dx + dx;
  }

  lemma GridAscendingAt(xmin: real, n: nat, dx: real, i: int, j: int)
    requires dx > 0.0 && 0 <= i < j < n
    ensures var xs := seq(n, k => xmin + k as real * dx); xs[i] < xs[j]
  {
    GridStepPositive(i as real, j as real, dx);
  }

  lemma GridStepPositive(a: real, b: real, dx: real)
    requires a < b && dx > 0.0
    ensures a * dx < b * dx
  {
    assert (b - a) * dx > 0.0;
    assert b * dx - a * dx == (b - a) * dx;
  }

  /** The cursor `while (prices[k].date < x && k < prices.length - 1) k += 1`
      started from 0: the first price dated at or after `x`, or the last price
      when every price is earlier than `x`. */
  function PriceIndex(prices: seq<Point>, x: real): (k: nat)
    requires |prices| > 0
    ensures k < |prices|
    ensures forall i :: 0 <= i < k ==> (prices[i].date as real) < x
    ensures k == |prices| - 1 || x <= prices[k].date as real
  {
    if |prices| == 1 || x <= prices[0].date as real then 0
    else 1 + PriceIndex(prices[1..], x)
  }

  /** Any index where the cursor loop can stop is the one `PriceIndex` picks. */
  lemma {:induction false} PriceIndexUnique(prices: seq<Point>, x: real, k: nat)
    requires k < |prices|
    requires forall i :: 0 <= i < k ==> (prices[i].date as real) < x
    requires k == |prices| - 1 || x <= prices[k].date as real
    ensures PriceIndex(prices, x) == k
  {
    if k > 0 {
      assert (prices[0].date as real) < x;
      forall i | 0 <= i < k - 1 ensures (prices[1..][i].date as real) < x {
        assert prices[1..][i] == prices[i + 1];
      }
      PriceIndexUnique(prices[1..], x, k - 1);
    }
  }

  /** The cursor loop resumed from `k0`, every price before which is already
      known to be earlier than `x`: it stops where `PriceIndex` points. */
  method Advance(prices: seq<Point>, x: real, k0: nat) returns (k: nat)
    requires k0 < |prices|
    requires forall i :: 0 <= i < k0 ==> (prices[i].date as real) < x
    ensures k == PriceIndex(prices, x)
  {
    k := k0;
    while (prices[k].date as real) < x && k < |prices| - 1
      invariant k < |prices|
      invariant forall i :: 0 <= i < k ==> (prices[i].date as real) < x
      decreases |prices| - k
    {
      k := k + 1;
    }
    PriceIndexUnique(prices, x, k);
  }

  /** The cursor never moves backward when the sampling instant advances. */
  lemma PriceIndexMonotone(prices: seq<Point>, x: real, y: real)
    requires |prices| > 0 && x <= y
    ensures PriceIndex(prices, x) <= PriceIndex(prices, y)
  {
  }

  /** On an ascending history every price before the selected one is earlier
      than `x` and every price after it is later than or at `x`. */
  lemma PriceIndexSplits(prices: seq<Point>, x: real)
    requires |prices| > 0 && Ascending(prices)
    ensures var k := PriceIndex(prices, x);
      forall i :: k < i < |prices| ==> x <= prices[i].date as real
  {
  }
}
