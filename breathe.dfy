/**
 * The "breathe" value behind the pulsing background: on every timer tick it
 * rises or falls by a random fraction of 0.05, turns round when it reaches a
 * bound, and is otherwise rounded to two decimals.
 */
module Breathe {
  import opened JsNumber

  datatype Direction = In | Out

  /** The two pieces of state a tick reads and writes. */
  datatype Phase = Phase(value: real, direction: Direction)

  /** One tick, `change` standing for the `Math.random()` draw. */
  function Tick(p: Phase, minValue: real, maxValue: real, change: real): Phase
  {
    match p.direction
    case In =>
      var newValue := p.value + change / 20.0;
      if newValue >= maxValue then Phase(maxValue, Out) else Phase(ToFixed(newValue, 2), In)
    case Out =>
      var newValue := p.value - change / 20.0;
      if newValue <= minValue then Phase(minValue, In) else Phase(ToFixed(newValue, 2), Out)
  }

  /** The phase after one tick per draw, in order. */
  function Run(p: Phase, minValue: real, maxValue: real, changes: seq<real>): Phase
    decreases |changes|
  {
    if changes == [] then p else Run(Tick(p, minValue, maxValue, changes[0]), minValue, maxValue, changes[1..])
  }

  /** A whole number of hundredths. */
  predicate OnGrid(x: real)
  {
    (x * 100.0).Floor as real == x * 100.0
  }

  predicate ValidDraw(change: real)
  {
    0.0 <= change < 1.0
  }

  /** The hook's state: `value` and `direction`, and the bounds it was created with. */
  class Breathe {
    var value: real
    var direction: Direction
    const minValue: real
    const maxValue: real

    /** Starts at the initial value, breathing in. */
    constructor (initialValue: real, minValue: real, maxValue: real)
      ensures value == initialValue && direction == In
      ensures this.minValue == minValue && this.maxValue == maxValue
    {
      value := initialValue;
      direction := In;
      this.minValue := minValue;
      this.maxValue := maxValue;
    }

    function Current(): Phase
      reads this
    {
      Phase(value, direction)
    }

    /** The value stays between the bounds, on the grid of hundredths. */
    predicate InRange()
      reads this
    {
      minValue <= value <= maxValue && OnGrid(value)
    }

    /** One timer tick. */
    method Step(change: real)
      requires ValidDraw(change)
      modifies this
      ensures Current() == Tick(old(Current()), minValue, maxValue, change)
      ensures OnGrid(minValue) && OnGrid(maxValue) && minValue <= maxValue && old(InRange()) ==> InRange()
    {
      ghost var before := Current();
      var newValue: real;
      if direction == In {
        newValue := value + change / 20.0;
        if newValue >= maxValue {
          direction := Out;
          value := maxValue;
          return;
        }
      } else {
        newValue := value - change / 20.0;
        if newValue <= minValue {
          direction := In;
          value := minValue;
          return;
        }
      }
      value := ToFixed(newValue, 2);
      if OnGrid(minValue) && OnGrid(maxValue) && minValue <= maxValue && minValue <= before.value <= maxValue {
        TickStaysInRange(before, minValue, maxValue, change);
      }
      TickLandsOnGrid(before, minValue, maxValue, change);
    }
  }

  lemma Hundred()
    ensures Scale(2) == 100.0
  {
    assert Scale(0) == 1.0;
    assert Scale(1) == 10.0;
  }

  /** Rounding leaves a value already on the grid unchanged. */
  lemma GridValueKept(x: real)
    requires OnGrid(x)
    ensures ToFixed(x, 2) == x
  {
    var n := (x * 100.0).Floor;
    Hundred();
    ToFixedOnGrid(n, 2);
    assert n as real / 100.0 == x;
  }

  /** Rounding to two decimals lands on the grid. */
  lemma RoundedOnGrid(x: real)
    ensures OnGrid(ToFixed(x, 2))
  {
    Hundred();
    var k := Scale(2);
    if x >= 0.0 {
      var u := Units(x, k);
      assert ToFixed(x, 2) == u as real / 100.0;
      Hundredths(u);
    } else {
      var u := Units(-x, k);
      assert ToFixed(x, 2) == -(u as real / 100.0) == (-u) as real / 100.0;
      Hundredths(-u);
    }
  }

  /** A whole number of hundredths is on the grid. */
  lemma Hundredths(n: int)
    ensures OnGrid(n as real / 100.0)
  {
    ProductOfDiv(n as real, 100.0);
  }

  /** Every tick from a value between grid-aligned bounds keeps the value between them. */
  lemma TickStaysInRange(p: Phase, minValue: real, maxValue: real, change: real)
    requires ValidDraw(change) && OnGrid(minValue) && OnGrid(maxValue)
    requires minValue <= p.value <= maxValue
    ensures minValue <= Tick(p, minValue, maxValue, change).value <= maxValue
  {
    GridValueKept(minValue);
    GridValueKept(maxValue);
    var step := change / 20.0;
    var newValue := if p.direction.In? then p.value + step else p.value - step;
    if p.direction.In? && newValue < maxValue {
      ToFixedMonotone(minValue, newValue, 2);
      ToFixedMonotone(newValue, maxValue, 2);
    } else if p.direction.Out? && newValue > minValue {
      ToFixedMonotone(minValue, newValue, 2);
      ToFixedMonotone(newValue, maxValue, 2);
    }
  }

  /** With bounds on the grid, every tick leaves the value on the grid, whatever it was before. */
  lemma TickLandsOnGrid(p: Phase, minValue: real, maxValue: real, change: real)
    ensures OnGrid(minValue) && OnGrid(maxValue) ==> OnGrid(Tick(p, minValue, maxValue, change).value)
  {
    var newValue := if p.direction.In? then p.value + change / 20.0 else p.value - change / 20.0;
    RoundedOnGrid(newValue);
  }

  /** The direction turns only at a bound: to `Out` at the maximum, to `In` at the minimum. */
  lemma TurnsOnlyAtBound(p: Phase, minValue: real, maxValue: real, change: real)
    ensures var r := Tick(p, minValue, maxValue, change);
            && (p.direction == In && r.direction == Out <==> p.value + change / 20.0 >= maxValue && p.direction == In)
            && (p.direction == Out && r.direction == In <==> p.value - change / 20.0 <= minValue && p.direction == Out)
            && (r.direction != p.direction ==> r.value == (if r.direction == Out then maxValue else minValue))
  {
  }

  /** A tick from a value on the grid never moves against its direction. */
  lemma TickFollowsDirection(p: Phase, minValue: real, maxValue: real, change: real)
    requires ValidDraw(change) && OnGrid(p.value) && minValue <= p.value <= maxValue
    ensures var r := Tick(p, minValue, maxValue, change);
            && (p.direction == In ==> r.value >= p.value)
            && (p.direction == Out ==> r.value <= p.value)
  {
    GridValueKept(p.value);
    if p.direction == In {
      ToFixedMonotone(p.value, p.value + change / 20.0, 2);
    } else {
      ToFixedMonotone(p.value - change / 20.0, p.value, 2);
    }
  }

  /** Each tick moves the value by at most a twentieth of the draw plus the half hundredth rounding may add. */
  lemma TickStepBounded(p: Phase, minValue: real, maxValue: real, change: real)
    requires ValidDraw(change) && minValue <= p.value <= maxValue
    ensures var r := Tick(p, minValue, maxValue, change);
            p.value - change / 20.0 - 0.005 <= r.value <= p.value + change / 20.0 + 0.005
    ensures var r := Tick(p, minValue, maxValue, change);
            p.value - 0.055 < r.value < p.value + 0.055
  {
    Hundred();
    var newValue := if p.direction.In? then p.value + change / 20.0 else p.value - change / 20.0;
    ToFixedError(newValue, 2);
  }

  /** Over any run of ticks from a value between grid-aligned bounds, the value never leaves them. */
  lemma {:induction false} RunStaysInRange(p: Phase, minValue: real, maxValue: real, changes: seq<real>)
    requires OnGrid(minValue) && OnGrid(maxValue)
    requires forall i :: 0 <= i < |changes| ==> ValidDraw(changes[i])
    requires minValue <= p.value <= maxValue
    ensures minValue <= Run(p, minValue, maxValue, changes).value <= maxValue
    decreases |changes|
  {
    if changes != [] {
      TickStaysInRange(p, minValue, maxValue, changes[0]);
      RunStaysInRange(Tick(p, minValue, maxValue, changes[0]), minValue, maxValue, changes[1..]);
    }
  }
}
