/** Numeric helpers of the animation: the linear remap `mapRange`. */
module Utils {

  /** JavaScript's Number.EPSILON, 2^-52, the width of the degenerate-range guard. */
  const EPSILON: real := 1.0 / 4503599627370496.0

  function Abs(x: real): (r: real)
    ensures r >= 0.0 && (r == x || r == -x)
  {
    if x < 0.0 then -x else x
  }

  /** The smaller and the larger end of an output range, whichever way round it is given. */
  function Lo(a: real, b: real): real { if a < b then a else b }
  function Hi(a: real, b: real): real { if a < b then b else a }

  /** True when the input range is too narrow to divide by. */
  predicate Degenerate(inputMin: real, inputMax: real)
  {
    Abs(inputMin - inputMax) < EPSILON
  }

  /**
   * Maps `value` from [inputMin, inputMax] onto [outputMin, outputMax].
   * A degenerate input range yields outputMin; with `clamp` the result is
   * kept inside the output range, whichever of its ends is the larger.
   */
  function MapRange(value: real, inputMin: real, inputMax: real,
                    outputMin: real, outputMax: real, clamp: bool): (r: real)
    ensures Degenerate(inputMin, inputMax) ==> r == outputMin
    ensures clamp ==> Lo(outputMin, outputMax) <= r <= Hi(outputMin, outputMax)
  {
    if Degenerate(inputMin, inputMax) then
      outputMin
    else
      var outVal := (value - inputMin) / (inputMax - inputMin) * (outputMax - outputMin) + outputMin;
      if !clamp then
        outVal
      else if outputMax < outputMin then
        (if outVal < outputMax then outputMax else if outVal > outputMin then outputMin else outVal)
      else
        (if outVal > outputMax then outputMax else if outVal < outputMin then outputMin else outVal)
  }

  /**
   * Without clamping and on a proper input range, the result is the point of
   * the output range that divides it in the same ratio as `value` divides the
   * input range.
   */
  lemma MapRangeIsLinear(value: real, inputMin: real, inputMax: real, outputMin: real, outputMax: real)
    requires !Degenerate(inputMin, inputMax)
    ensures (MapRange(value, inputMin, inputMax, outputMin, outputMax, false) - outputMin) * (inputMax - inputMin)
            == (value - inputMin) * (outputMax - outputMin)
  {
    var d := inputMax - inputMin;
    assert d != 0.0;
    var q := (value - inputMin) / d;
    assert q * d == value - inputMin;
    calc {
      (MapRange(value, inputMin, inputMax, outputMin, outputMax, false) - outputMin) * d;
      (q * (outputMax - outputMin)) * d;
      (q * d) * (outputMax - outputMin);
    }
  }

  /** The ends of the input range go to the ends of the output range, clamped or not. */
  lemma MapRangeEndpoints(inputMin: real, inputMax: real, outputMin: real, outputMax: real, clamp: bool)
    requires !Degenerate(inputMin, inputMax)
    ensures MapRange(inputMin, inputMin, inputMax, outputMin, outputMax, clamp) == outputMin
    ensures MapRange(inputMax, inputMin, inputMax, outputMin, outputMax, clamp) == outputMax
  {
    var d := inputMax - inputMin;
    assert d != 0.0;
    assert (inputMin - inputMin) / d == 0.0;
    assert (inputMax - inputMin) / d == 1.0;
  }

  /**
   * Clamping changes nothing when the unclamped result already lies in the
   * output range, and otherwise yields the end of the range it overshot.
   */
  lemma MapRangeClamp(value: real, inputMin: real, inputMax: real, outputMin: real, outputMax: real)
    ensures var u := MapRange(value, inputMin, inputMax, outputMin, outputMax, false);
            var c := MapRange(value, inputMin, inputMax, outputMin, outputMax, true);
            && (Lo(outputMin, outputMax) <= u <= Hi(outputMin, outputMax) ==> c == u)
            && (u < Lo(outputMin, outputMax) ==> c == Lo(outputMin, outputMax))
            && (u > Hi(outputMin, outputMax) ==> c == Hi(outputMin, outputMax))
  {
  }

  /** A worked instance: the middle of [0, 10] goes to the middle of [0, 100]. */
  lemma MapRangeMidpoint()
    ensures MapRange(5.0, 0.0, 10.0, 0.0, 100.0, false) == 50.0
    ensures forall x: real :: MapRange(x, 5.0, 5.0, 0.0, 100.0, false) == 0.0
  {
  }
}
