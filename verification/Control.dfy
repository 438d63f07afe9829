/**
  Speed control of the flap motor: the controller with its integral limit, the speed filter, the shipped
  gains and tables, and the short reverse turn on arrival. The methods compute in 32-bit integers, so that
  they verify at all says that no intermediate result overflows.
  */
module Control {
  import opened Arithmetic
  import opened Interpolation
  import opened FlapWheel
  import opened HBridge

  newtype int32 = x | -0x8000_0000 <= x < 0x8000_0000

  const TICKS: nat := 0x1_0000_0000
  const GAIN_SCALE := 1000

  // ---------------------------------------------------------------- the controller

  datatype PidState = PidState(
    kp: int, ki: int, kd: int, integral: int, previousError: int, pError: int, iError: int, dError: int,
    iMin: int, iMax: int, oMin: int, oMax: int, output: int
  )

  predicate Fits32(x: int) {
    -0x8000_0000 <= x < 0x8000_0000
  }

  /** An exceeded limit is divided by the gain. */
  predicate Divides(ki: int, integral: int, iMin: int, iMax: int) {
    ki == 0 ==> iMin <= ki * integral <= iMax
  }

  /** The raw integral, brought back when its scaled value is outside the limits. */
  function AntiWindup(ki: int, integral: int, iMin: int, iMax: int): int
    requires Divides(ki, integral, iMin, iMax)
  {
    if ki * integral > iMax then Div(iMax, ki)
    else if ki * integral < iMin then Div(iMin, ki)
    else integral
  }

  /** The code's order of the two comparisons, for limits in any order. */
  function Saturated(x: int, lo: int, hi: int): (r: int)
    ensures lo <= hi ==> r == Limited(x, lo, hi)
  {
    if x < lo then lo else if x > hi then hi else x
  }

  function PidCompute(p: PidState, error: int): PidState
    requires Divides(p.ki, p.integral + error, p.iMin, p.iMax)
  {
    var integral := AntiWindup(p.ki, p.integral + error, p.iMin, p.iMax);
    var pError, iError, dError := p.kp * error, p.ki * integral, p.kd * (error - p.previousError);
    p.(integral := integral, previousError := error, pError := pError, iError := iError, dError := dError,
       output := Saturated(Div(pError + iError + dError, GAIN_SCALE), p.oMin, p.oMax))
  }

  /** No intermediate result of the computation leaves 32 bits, and nothing is divided by zero. */
  predicate PidFits(p: PidState, error: int) {
    var sum := p.integral + error;
    && Divides(p.ki, sum, p.iMin, p.iMax)
    && var after := PidCompute(p, error);
    && Fits32(sum) && Fits32(error - p.previousError)
    && Fits32(p.ki * sum) && Fits32(after.integral)
    && Fits32(after.pError) && Fits32(after.iError) && Fits32(after.dError)
    && Fits32(after.pError + after.iError) && Fits32(after.pError + after.iError + after.dError)
  }

  /**
    Dividing the limits back truncates, yet it is exactly saturation: the raw integral is the sum, limited
    to the range whose scaled values respect the limits.
    */
  lemma AntiWindupSaturates(ki: int, integral: int, iMin: int, iMax: int)
    requires ki > 0 && iMin <= 0 <= iMax
    ensures Div(iMin, ki) <= 0 <= Div(iMax, ki)
    ensures AntiWindup(ki, integral, iMin, iMax) == Limited(integral, Div(iMin, ki), Div(iMax, ki))
    ensures iMin <= ki * AntiWindup(ki, integral, iMin, iMax) <= iMax
    ensures forall i :: iMin <= ScaledBy(ki, i) <= iMax <==> Div(iMin, ki) <= i <= Div(iMax, ki)
  {
    hide Div;
    var lo, hi := Div(iMin, ki), Div(iMax, ki);
    LimitsScaled(ki, iMin, iMax);
    WithinLimits(ki, 0, iMin, iMax);
    WithinLimits(ki, lo, iMin, iMax);
    WithinLimits(ki, hi, iMin, iMax);
    WithinLimits(ki, integral, iMin, iMax);
    forall i ensures iMin <= ScaledBy(ki, i) <= iMax <==> lo <= i <= hi {
      WithinLimits(ki, i, iMin, iMax);
    }
  }

  function ScaledBy(ki: int, i: int): int { ki * i }

  lemma LimitsScaled(ki: int, iMin: int, iMax: int)
    requires ki > 0 && iMin <= 0 <= iMax
    ensures ki * Div(iMax, ki) <= iMax < ki * Div(iMax, ki) + ki
    ensures ki * Div(iMin, ki) - ki < iMin <= ki * Div(iMin, ki)
  {
    hide Div;
    DivIs(iMax, ki, Div(iMax, ki));
    DivIs(iMin, ki, Div(iMin, ki));
  }

  lemma WithinLimits(ki: int, i: int, iMin: int, iMax: int)
    requires ki > 0 && iMin <= 0 <= iMax
    ensures ki * i <= iMax <==> i <= Div(iMax, ki)
    ensures iMin <= ki * i <==> Div(iMin, ki) <= i
  {
    hide Div;
    LimitsScaled(ki, iMin, iMax);
    Scaled(ki, i, Div(iMax, ki));
    Scaled(ki, Div(iMax, ki) + 1, i);
    Scaled(ki, Div(iMin, ki), i);
    Scaled(ki, i, Div(iMin, ki) - 1);
  }

  // ---------------------------------------------------------------- what the controller's output is

  /** q is a thousandth of a sum, cut off toward zero. */
  predicate Thousandth(sum: int, q: int) {
    && (sum >= 0 ==> 1000 * q <= sum < 1000 * q + 1000)
    && (sum <= 0 ==> 1000 * q - 1000 < sum <= 1000 * q)
  }

  /** The three weighted terms: of the error, of the integral as it then is, and of the change of the error. */
  function Weighted(p: PidState, error: int, integral: int): int {
    p.kp * error + p.ki * integral + p.kd * (error - p.previousError)
  }

  /**
    The output is a thousandth of the weighted sum, between the limits; and between limits on both sides of
    zero it is at a limit exactly when the sum is at it or beyond. The error is remembered, and added to the
    integral as long as that is not limited.
    */
  lemma OutputIs(p: PidState, error: int)
    requires Divides(p.ki, p.integral + error, p.iMin, p.iMax) && p.oMin <= p.oMax
    ensures var e := PidCompute(p, error);
      var sum := Weighted(p, error, e.integral);
      && e.previousError == error
      && (p.iMin <= p.ki * (p.integral + error) <= p.iMax ==> e.integral == p.integral + error)
      && (forall q {:trigger Thousandth(sum, q)} :: Thousandth(sum, q) ==>
            e.output == if q > p.oMax then p.oMax else if q < p.oMin then p.oMin else q)
      && (p.oMin < e.output < p.oMax ==> Thousandth(sum, e.output))
      && (p.oMin < 0 < p.oMax ==>
            && (e.output == p.oMax <==> 1000 * p.oMax <= sum)
            && (e.output == p.oMin <==> sum <= 1000 * p.oMin))
  {
    hide Div;
    var sum := Weighted(p, error, PidCompute(p, error).integral);
    var d := Div(sum, GAIN_SCALE);
    DivIs(sum, 1000, d);
    forall q {:trigger Thousandth(sum, q)} | Thousandth(sum, q)
      ensures q == d
    {
      DivIs(sum, 1000, q);
    }
  }

  /** The scaled integral rises with the integral, also where it is limited. */
  lemma WindupMonotone(ki: int, low: int, high: int, iMin: int, iMax: int)
    requires ki > 0 && low <= high && iMin <= iMax
    ensures AntiWindup(ki, low, iMin, iMax) <= AntiWindup(ki, high, iMin, iMax)
  {
    hide Div;
    DivMonotone(iMin, iMax, ki);
    BackCalculated(ki, low, iMin, iMax);
    BackCalculated(ki, high, iMin, iMax);
    Scaled(ki, low, high);
  }

  lemma BackCalculated(ki: int, i: int, iMin: int, iMax: int)
    requires ki > 0
    ensures iMin <= ki * i ==> Div(iMin, ki) <= i
    ensures ki * i <= iMax ==> i <= Div(iMax, ki)
  {
    hide Div;
    DivMultiple(i, ki);
    if iMin <= ki * i {
      DivMonotone(iMin, i * ki, ki);
    }
    if ki * i <= iMax {
      DivMonotone(i * ki, iMax, ki);
    }
  }

  /** With gains that are not negative, a larger error never gives a smaller output. */
  lemma OutputMonotone(p: PidState, small: int, large: int)
    requires small <= large && p.kp >= 0 && p.ki >= 0 && p.kd >= 0 && p.iMin <= p.iMax && p.oMin <= p.oMax
    requires Divides(p.ki, p.integral + small, p.iMin, p.iMax) && Divides(p.ki, p.integral + large, p.iMin, p.iMax)
    ensures PidCompute(p, small).output <= PidCompute(p, large).output
  {
    hide AntiWindup, Div;
    var a, b := PidCompute(p, small), PidCompute(p, large);
    if p.ki > 0 {
      WindupMonotone(p.ki, p.integral + small, p.integral + large, p.iMin, p.iMax);
    }
    var x, y := Weighted(p, small, a.integral), Weighted(p, large, b.integral);
    ProductRises(p.kp, small, large);
    ProductRises(p.ki, a.integral, b.integral);
    ProductRises(p.kd, small - p.previousError, large - p.previousError);
    DivMonotone(x, y, GAIN_SCALE);
  }

  lemma ProductRises(gain: int, a: int, b: int)
    requires gain >= 0
    ensures a <= b || gain == 0 ==> gain * a <= gain * b
  {
  }

  class PidController {
    var kp: int32
    var ki: int32
    var kd: int32
    var integral: int32
    var previousError: int32
    var pError: int32
    var iError: int32
    var dError: int32
    var iMin: int32
    var iMax: int32
    var oMin: int32
    var oMax: int32
    var output: int32

    function View(): PidState reads this {
      PidState(kp as int, ki as int, kd as int, integral as int, previousError as int, pError as int, iError as int,
               dError as int, iMin as int, iMax as int, oMin as int, oMax as int, output as int)
    }

    constructor (kp: int32, ki: int32, kd: int32)
      ensures View() == PidState(kp as int, ki as int, kd as int, 0, 0, 0, 0, 0, -100000, 100000, -100000, 100000, 0)
    {
      this.kp, this.ki, this.kd := kp, ki, kd;
      integral, previousError, pError, iError, dError := 0, 0, 0, 0, 0;
      iMin, iMax, oMin, oMax, output := -100000, 100000, -100000, 100000, 0;
    }

    method OutputLimits(lo: int32, hi: int32)
      modifies this`oMin, this`oMax, this`output
      ensures View() == old(View()).(oMin := lo as int, oMax := hi as int,
                                     output := Saturated(old(output as int), lo as int, hi as int))
    {
      oMin, oMax := lo, hi;
      if output < oMin {
        output := oMin;
      } else if output > oMax {
        output := oMax;
      }
    }

    method IntegralLimits(lo: int32, hi: int32)
      requires Fits32(1000 * lo as int) && Fits32(1000 * hi as int) && Fits32(ki as int * integral as int)
      requires Divides(ki as int, integral as int, 1000 * lo as int, 1000 * hi as int)
      requires Fits32(AntiWindup(ki as int, integral as int, 1000 * lo as int, 1000 * hi as int))
      modifies this`iMin, this`iMax, this`iError, this`integral
      ensures View() == old(View()).(iMin := 1000 * lo as int, iMax := 1000 * hi as int,
                                     iError := ki as int * old(integral as int),
                                     integral := AntiWindup(ki as int, old(integral as int), 1000 * lo as int,
                                         1000 * hi as int))
    {
      hide Div, AntiWindup;
      iMin, iMax := lo * 1000, hi * 1000;
      iError := ki * integral;
      integral := Unwound();
    }

    /** The integral as it should be: calculated back from a limit that its scaled value exceeds. */
    method Unwound() returns (i: int32)
      requires iError as int == ki as int * integral as int
      requires Divides(ki as int, integral as int, iMin as int, iMax as int)
      requires Fits32(AntiWindup(ki as int, integral as int, iMin as int, iMax as int))
      ensures i as int == AntiWindup(ki as int, integral as int, iMin as int, iMax as int)
    {
      hide Div;
      i := integral;
      if iError > iMax {
        i := Div(iMax as int, ki as int) as int32;
      } else if iError < iMin {
        i := Div(iMin as int, ki as int) as int32;
      }
    }

    /** For any gains and limits with which nothing overflows and nothing is divided by zero. */
    method Compute(error: int32) returns (r: int32)
      requires PidFits(View(), error as int)
      modifies this`integral, this`previousError, this`pError, this`iError, this`dError, this`output
      ensures View() == PidCompute(old(View()), error as int)
      ensures r == output
    {
      hide AntiWindup, Div;
      ghost var after := PidCompute(View(), error as int);
      integral := integral + error;
      var derivative := error - previousError;
      previousError := error;
      pError := kp * error;
      iError := ki * integral;
      dError := kd * derivative;
      integral := Unwound();
      iError := ki * integral;
      OutputInRange(pError as int + iError as int + dError as int);
      output := Div((pError + iError + dError) as int, GAIN_SCALE) as int32;
      if output < oMin {
        output := oMin;
      } else if output > oMax {
        output := oMax;
      }
      return output;
    }
  }

  lemma DivShrinks(a: int, d: int)
    requires d > 0
    ensures a >= 0 ==> 0 <= Div(a, d) <= a
    ensures a <= 0 ==> a <= Div(a, d) <= 0
  {
    if a >= 0 {
      ProductMonotone(1, d, a);
      DivBounds(a, d, 0, a);
    }
    if a <= 0 {
      ProductMonotone(1, d, -a);
      assert a * d == -((-a) * d);
      DivBounds(a, d, a, 0);
    }
  }

  // ---------------------------------------------------------------- the shipped tuning

  /** The shipped gains and limits, and the ranges that the state then stays in. */
  ghost predicate Tuned(p: PidState) {
    && p.kp == 6000 && p.ki == 6 && p.kd == 0
    && p.iMin == -75000 && p.iMax == 75000 && p.oMin == -1000 && p.oMax == 1000
    && -12500 <= p.integral <= 12500 && -100000 <= p.previousError <= 75
    && -1000 <= p.output <= 1000
  }

  lemma ShippedWindup(integral: int)
    ensures AntiWindup(6, integral, -75000, 75000) ==
      if 6 * integral > 75000 then 12500 else if 6 * integral < -75000 then -12500 else integral
    ensures Div(75000, 6) == 12500 && Div(-75000, 6) == -12500
    ensures -12500 <= AntiWindup(6, integral, -75000, 75000) <= 12500
  {
  }

  lemma OutputInRange(sum: int)
    ensures -0x8000_0000 <= sum < 0x8000_0000 ==> -0x8000_0000 <= Div(sum, GAIN_SCALE) < 0x8000_0000
  {
    DivShrinks(sum, 1000);
  }

  lemma TunedStaysTuned(p: PidState, error: int)
    requires Tuned(p) && -100000 <= error <= 75
    ensures PidFits(p, error) && Tuned(PidCompute(p, error))
  {
    hide Div, AntiWindup;
    ShippedWindup(p.integral + error);
    OutputInRange(PidCompute(p, error).pError + PidCompute(p, error).iError + PidCompute(p, error).dError);
  }

  const SPEED_INPUTS: seq<int> := [0, 25, 30, 40, 50, 70, 100]
  const DECAY_INPUTS: seq<int> := [0, 250, 500, 750, 1000]
  const PWM_OUTPUTS: seq<int> := [
    0, 0, 0, 0, 0,
    150, 210, 260, 300, 310,
    165, 230, 290, 340, 340,
    185, 280, 350, 412, 420,
    215, 325, 420, 490, 500,
    320, 500, 600, 675, 690,
    700, 800, 900, 900, 900
  ]
  const DECAY_SPEEDS: seq<int> := [30, 60]
  const DECAY_OUTPUTS: seq<int> := [650, 0]
  const DISTANCES: seq<int> := [2, 6]
  const DISTANCE_SPEEDS: seq<int> := [18, 75]

  lemma ShippedAxes()
    ensures IsGrid(SPEED_INPUTS, DECAY_INPUTS) && |PWM_OUTPUTS| == |SPEED_INPUTS| * |DECAY_INPUTS|
    ensures Increasing(DECAY_SPEEDS) && |DECAY_OUTPUTS| == |DECAY_SPEEDS|
    ensures Increasing(DISTANCES) && |DISTANCE_SPEEDS| == |DISTANCES|
  {
  }

  lemma ShippedPwm(i: nat, j: nat)
    ensures 0 <= Rows(PWM_OUTPUTS, 5)(i, j) <= 900
  {
    var k := i * 5 + j;
    if k < |PWM_OUTPUTS| {
      assert 0 <= PWM_OUTPUTS[k] <= 900;
    }
  }

  ghost function SpeedOfDistance(distance: int): (s: int)
    ensures 0 <= s <= 75
  {
    ShippedAxes();
    DistanceSpeedInRange(distance);
    if distance < 1 then 0 else LinearAt(DISTANCES, DISTANCE_SPEEDS, distance)
  }

  lemma DistanceSpeedInRange(distance: int)
    ensures Increasing(DISTANCES) && 18 <= LinearAt(DISTANCES, DISTANCE_SPEEDS, distance) <= 75
  {
    ShippedAxes();
    LinearInRange(DISTANCES, DISTANCE_SPEEDS, distance);
  }

  /** The farther there is to go, the faster, and at rest only on arrival. */
  lemma FasterWhenFarther(near: nat, far: nat)
    requires near <= far
    ensures SpeedOfDistance(near) <= SpeedOfDistance(far)
    ensures SpeedOfDistance(near) == 0 <==> near == 0
  {
    ShippedAxes();
    DistanceSpeedInRange(near);
    DistanceSpeedInRange(far);
    LinearMonotone(DISTANCES, DISTANCE_SPEEDS, near, far);
  }

  ghost function DecayOfSpeed(setpoint: int): (d: int)
    ensures 0 <= d <= 1000
  {
    ShippedAxes();
    SpeedDecayInRange(setpoint);
    if setpoint == 0 then 1000 else LinearAt(DECAY_SPEEDS, DECAY_OUTPUTS, setpoint)
  }

  lemma SpeedDecayInRange(setpoint: int)
    ensures Increasing(DECAY_SPEEDS) && 0 <= LinearAt(DECAY_SPEEDS, DECAY_OUTPUTS, setpoint) <= 650
  {
    ShippedAxes();
    if 30 < setpoint < 60 {
      LinearWithinCell(DECAY_SPEEDS, DECAY_OUTPUTS, 0, setpoint);
    }
  }

  /** Turning faster, the motor is braked less: fully at rest, 650 at low speeds, and not at all from 60 on. */
  lemma DecayFalls(slow: int, fast: int)
    requires 0 <= slow <= fast
    ensures DecayOfSpeed(fast) <= DecayOfSpeed(slow)
    ensures DecayOfSpeed(0) == 1000
    ensures 0 < slow <= 30 ==> DecayOfSpeed(slow) == 650
    ensures fast >= 60 ==> DecayOfSpeed(fast) == 0
    ensures 30 <= slow <= 60 ==>
      30 * (650 - DecayOfSpeed(slow)) <= 650 * (slow - 30) < 30 * (650 - DecayOfSpeed(slow)) + 30
  {
    hide LinearAt;
    ShippedAxes();
    SpeedDecayInRange(slow);
    SpeedDecayInRange(fast);
    LinearOutside(DECAY_SPEEDS, DECAY_OUTPUTS, slow);
    LinearOutside(DECAY_SPEEDS, DECAY_OUTPUTS, fast);
    if 30 <= slow <= 60 {
      LinearIsOnLine(DECAY_SPEEDS, DECAY_OUTPUTS, 0, slow);
    }
    if 30 <= fast <= 60 {
      LinearIsOnLine(DECAY_SPEEDS, DECAY_OUTPUTS, 0, fast);
    }
  }

  /** The speed asked for is 18 close to the flap and 75 from six pulses on, on a line in between. */
  lemma SetpointIs(distance: nat)
    ensures 1 <= distance <= 2 ==> SpeedOfDistance(distance) == 18
    ensures distance >= 6 ==> SpeedOfDistance(distance) == 75
    ensures 2 <= distance <= 6 ==>
      4 * (SpeedOfDistance(distance) - 18) <= 57 * (distance - 2) < 4 * (SpeedOfDistance(distance) - 18) + 4
  {
    hide LinearAt;
    ShippedAxes();
    LinearOutside(DISTANCES, DISTANCE_SPEEDS, distance);
    if 2 <= distance <= 6 {
      LinearIsOnLine(DISTANCES, DISTANCE_SPEEDS, 0, distance);
    }
  }

  /** The shipped table rises with the speed and with the decay, so the feed-forward does. */
  lemma FeedForwardRises(setpoint: int, setpoint': int, decay: int, decay': int)
    requires setpoint <= setpoint' && decay <= decay'
    ensures FeedForward(setpoint, decay) <= FeedForward(setpoint', decay')
  {
    hide BilinearAt, Rows;
    ShippedAxes();
    TableRises();
    var f := Rows(PWM_OUTPUTS, 5);
    BilinearMonotone(SPEED_INPUTS, DECAY_INPUTS, f, setpoint, setpoint', decay);
    BilinearMonotoneSecond(SPEED_INPUTS, DECAY_INPUTS, f, setpoint', decay, decay');
  }

  /** It is nothing at rest and 900 at full speed, and at each pair of support points what the table says. */
  lemma FeedForwardAtEnds(setpoint: int, decay: int)
    ensures setpoint <= 0 ==> FeedForward(setpoint, decay) == 0
    ensures setpoint >= 100 && decay >= 500 ==> FeedForward(setpoint, decay) == 900
  {
    hide BilinearAt, Rows;
    ShippedAxes();
    if setpoint <= 0 {
      FeedForwardRises(setpoint, 0, decay, if decay >= 1000 then decay else 1000);
    }
    if setpoint >= 100 && decay >= 500 {
      FeedForwardRises(100, setpoint, 500, decay);
    }
    var f := Rows(PWM_OUTPUTS, 5);
    BilinearClamped(SPEED_INPUTS, DECAY_INPUTS, f, 0, if decay >= 1000 then decay else 1000);
    FeedForwardInTable(0, 4);
    FeedForwardInTable(6, 2);
  }

  lemma FeedForwardInTable(k: nat, m: nat)
    requires k < 7 && m < 5
    ensures FeedForward(SPEED_INPUTS[k], DECAY_INPUTS[m]) == PWM_OUTPUTS[5 * k + m]
  {
    hide BilinearAt;
    ShippedAxes();
    BilinearExact(SPEED_INPUTS, DECAY_INPUTS, Rows(PWM_OUTPUTS, 5), k, m);
  }

  lemma TableRises()
    ensures Rising(Rows(PWM_OUTPUTS, 5), 7, 5)
    ensures forall i, j :: 0 <= i < 7 && 0 <= j && j + 1 < 5 ==>
      Rows(PWM_OUTPUTS, 5)(i, j) <= Rows(PWM_OUTPUTS, 5)(i, j + 1)
  {
    hide Rows;
    forall i, j | 0 <= i < 7 && 0 <= j < 5
      ensures i + 1 < 7 ==> Rows(PWM_OUTPUTS, 5)(i, j) <= Rows(PWM_OUTPUTS, 5)(i + 1, j)
      ensures j + 1 < 5 ==> Rows(PWM_OUTPUTS, 5)(i, j) <= Rows(PWM_OUTPUTS, 5)(i, j + 1)
    {
      EntryRises(i, j);
    }
  }

  lemma EntryRises(i: nat, j: nat)
    requires i < 7 && j < 5
    ensures i + 1 < 7 ==> Rows(PWM_OUTPUTS, 5)(i, j) <= Rows(PWM_OUTPUTS, 5)(i + 1, j)
    ensures j + 1 < 5 ==> Rows(PWM_OUTPUTS, 5)(i, j) <= Rows(PWM_OUTPUTS, 5)(i, j + 1)
  {
    var k := i * 5 + j;
    assert k < 35;
    RowRises(i, j);
  }

  lemma RowRises(i: nat, j: nat)
    requires i < 7 && j < 5
    ensures i + 1 < 7 ==> PWM_OUTPUTS[i * 5 + j] <= PWM_OUTPUTS[i * 5 + j + 5]
    ensures j + 1 < 5 ==> PWM_OUTPUTS[i * 5 + j] <= PWM_OUTPUTS[i * 5 + j + 1]
  {
    if i == 0 {
    } else if i == 1 {
    } else if i == 2 {
    } else if i == 3 {
    } else if i == 4 {
    } else if i == 5 {
    } else {
    }
  }

  ghost function FeedForward(setpoint: int, decay: int): (s: int)
    ensures 0 <= s <= 900
  {
    ShippedAxes();
    FeedForwardInRange(setpoint, decay);
    BilinearAt(SPEED_INPUTS, DECAY_INPUTS, Rows(PWM_OUTPUTS, 5), setpoint, decay)
  }

  lemma FeedForwardInRange(setpoint: int, decay: int)
    ensures IsGrid(SPEED_INPUTS, DECAY_INPUTS)
    ensures 0 <= BilinearAt(SPEED_INPUTS, DECAY_INPUTS, Rows(PWM_OUTPUTS, 5), setpoint, decay) <= 900
  {
    hide Rows, BilinearAt;
    ShippedAxes();
    var i, j := Cell(SPEED_INPUTS, Clamp(SPEED_INPUTS, setpoint)), Cell(DECAY_INPUTS, Clamp(DECAY_INPUTS, decay));
    ShippedPwm(i, j);
    ShippedPwm(i, j + 1);
    ShippedPwm(i + 1, j);
    ShippedPwm(i + 1, j + 1);
    BilinearWithinCell(SPEED_INPUTS, DECAY_INPUTS, Rows(PWM_OUTPUTS, 5), setpoint, decay, 0, 900);
  }

  lemma ShippedCells(i: nat, j: nat)
    requires i + 1 < |SPEED_INPUTS| && j + 1 < |DECAY_INPUTS|
    ensures 0 < SPEED_INPUTS[i + 1] - SPEED_INPUTS[i] <= 30 && DECAY_INPUTS[j + 1] - DECAY_INPUTS[j] == 250
    ensures 900 * Area(SPEED_INPUTS[i + 1] - SPEED_INPUTS[i], 250) <= 6_750_000
  {
  }

  /** With the shipped tables no term and no partial sum of the feed-forward exceeds 6.75 million. */
  lemma FeedForwardFits(i: nat, j: nat, u: int, v: int)
    requires InCell(SPEED_INPUTS, i, u) && InCell(DECAY_INPUTS, j, v)
    ensures var f := Rows(PWM_OUTPUTS, 5);
      var wx1, wx0 := u - SPEED_INPUTS[i], SPEED_INPUTS[i + 1] - u;
      var wy1, wy0 := v - DECAY_INPUTS[j], DECAY_INPUTS[j + 1] - v;
      var t00, t10 := f(i, j) * wx0 * wy0, f(i + 1, j) * wx1 * wy0;
      var t01, t11 := f(i, j + 1) * wx0 * wy1, f(i + 1, j + 1) * wx1 * wy1;
      && Within(t00, 6_750_000) && Within(t10, 6_750_000) && Within(t01, 6_750_000) && Within(t11, 6_750_000)
      && Within(t00 + t10, 6_750_000) && Within(t00 + t10 + t01, 6_750_000) && Within(t00 + t10 + t01 + t11, 6_750_000)
  {
    hide Rows, Area;
    ShippedCells(i, j);
    ShippedPwm(i, j);
    ShippedPwm(i, j + 1);
    ShippedPwm(i + 1, j);
    ShippedPwm(i + 1, j + 1);
    var f := Rows(PWM_OUTPUTS, 5);
    BilinearFits(f(i, j), f(i, j + 1), f(i + 1, j), f(i + 1, j + 1), SPEED_INPUTS[i + 1] - u, u - SPEED_INPUTS[i],
                 DECAY_INPUTS[j + 1] - v, v - DECAY_INPUTS[j], 900);
  }

  // ---------------------------------------------------------------- the control loop, on values

  datatype Motion = Motion(
    setpoint: int, actual: int, position: nat, positionPrev: nat, changeTick: nat,
    distance: nat, distancePrev: nat, backspin: nat, overridden: bool, pid: PidState, duties: Duties
  )

  ghost predicate InRange(m: Motion) {
    && 0 <= m.setpoint <= 75 && 0 <= m.actual <= 100000
    && m.position < 48 && m.positionPrev < 48 && m.changeTick < TICKS
    && m.backspin <= 25 && Tuned(m.pid)
    && m.duties.ccr3 <= 1000 && m.duties.ccr4 <= 1000
  }

  /** The signed difference of two tick counts that wrap around. */
  function Elapsed(tick: int, since: int): int {
    Signed(tick - since, 0x8000_0000)
  }

  /** Less than half a wrap apart, in either order, it is the difference of the unbounded times. */
  lemma ElapsedIs(since: nat, tick: nat)
    requires -0x8000_0000 <= tick - since < 0x8000_0000
    ensures Elapsed(tick % 0x1_0000_0000, since % 0x1_0000_0000) == tick - since
  {
    var a, b := tick % 0x1_0000_0000, since % 0x1_0000_0000;
    SignedInRange(tick - since, 0x8000_0000);
    assert (a - b + 0x8000_0000) % 0x1_0000_0000 == (tick - since + 0x8000_0000) % 0x1_0000_0000;
  }

  /** A change of position is noticed at least one tick and not too many ticks after the one before it. */
  predicate Measurable(m: Motion, tick: nat) {
    m.position != m.positionPrev ==> 1 <= Elapsed(tick, m.changeTick) <= 0x7FFF_FFFF / 48
  }

  /** What the calculation needs: that 48 times the elapsed ticks fits 32 bits, and that nothing is divided by zero. */
  predicate SpeedDefined(m: Motion, tick: nat)
    requires m.position < 48 && m.positionPrev < 48
  {
    m.position != m.positionPrev ==>
      Fits32(48 * Elapsed(tick, m.changeTick))
      && FlapIndexWrap(m.position - m.positionPrev) != 0
      && Div(48 * Elapsed(tick, m.changeTick), FlapIndexWrap(m.position - m.positionPrev)) != 0
  }

  /** The time of a whole turn at the speed of the last slots, in ticks. */
  function TicksPerTurn(m: Motion, tick: nat): (t: int)
    requires m.position < 48 && m.positionPrev < 48 && m.position != m.positionPrev && SpeedDefined(m, tick)
    ensures t != 0
  {
    Div(48 * Elapsed(tick, m.changeTick), FlapIndexWrap(m.position - m.positionPrev))
  }

  lemma SlotsMoved(position: nat, positionPrev: nat)
    requires position < 48 && positionPrev < 48 && position != positionPrev
    ensures 1 <= FlapIndexWrap(position - positionPrev) <= 47
  {
    WrapIsResidue(position - positionPrev);
  }

  lemma TurnInRange(time: int, slots: int)
    requires 1 <= slots <= 47
    ensures time >= 1 ==> 1 <= Div(48 * time, slots) <= 48 * time
    ensures time <= -1 ==> 48 * time <= Div(48 * time, slots) <= -1
  {
    hide Div;
    if time >= 1 {
      ProductMonotone(1, slots, 48 * time);
      DivBounds(48 * time, slots, 1, 48 * time);
    }
    if time <= -1 {
      ProductMonotone(1, slots, 0 - 48 * time);
      assert 48 * time * slots == 0 - (0 - 48 * time) * slots;
      DivBounds(48 * time, slots, 48 * time, -1);
    }
  }

  /**
    The calculation is defined exactly when, after a change of position, the wrapped difference of the
    ticks is neither zero nor more than a 48th of the range of 32 bits away from zero.
    */
  lemma SpeedDefinedIff(m: Motion, tick: nat)
    requires m.position < 48 && m.positionPrev < 48
    ensures SpeedDefined(m, tick) <==>
      (m.position != m.positionPrev ==> 1 <= Abs(Elapsed(tick, m.changeTick)) <= 0x7FFF_FFFF / 48)
    ensures Measurable(m, tick) ==> SpeedDefined(m, tick)
  {
    hide Div, FlapIndexWrap, Elapsed;
    if m.position != m.positionPrev {
      SlotsMoved(m.position, m.positionPrev);
      var time := Elapsed(tick, m.changeTick);
      TurnInRange(time, FlapIndexWrap(m.position - m.positionPrev));
      if time == 0 {
        DivMultiple(0, FlapIndexWrap(m.position - m.positionPrev));
      }
    }
  }

  /** The first move after a long rest, or two changes at one tick, are outside: 44739243 ticks and none. */
  lemma UndefinedAfterRest(m: Motion, tick: nat)
    requires m.position < 48 && m.positionPrev < 48 && m.position != m.positionPrev
    requires m.changeTick < TICKS && (tick == (m.changeTick + 44739243) % TICKS || tick == m.changeTick)
    ensures !SpeedDefined(m, tick)
  {
    hide Div, FlapIndexWrap, SpeedDefined;
    SpeedDefinedIff(m, tick);
  }

  /** After a rest of almost all the ticks there are the difference is -1, and the speed comes out below zero. */
  lemma NegativeAfterLongerRest(m: Motion, tick: nat)
    requires m.position < 48 && m.positionPrev < 48 && m.position == (m.positionPrev + 1) % 48
    requires m.actual == 0 && Elapsed(tick, m.changeTick) == -1
    ensures SpeedDefined(m, tick) && SpeedCalc(m, tick).actual == -260
  {
    hide Div, FlapIndexWrap, Elapsed;
    WrapIsResidue(m.position - m.positionPrev);
    assert FlapIndexWrap(m.position - m.positionPrev) == 1;
    Quotients();
  }

  lemma Quotients()
    ensures Div(-48, 1) == -48 && Div(100000, -48) == -2083 && Div(-2083, 8) == -260
  {
  }

  function SpeedCalc(m: Motion, tick: nat): Motion
    requires m.position < 48 && m.positionPrev < 48 && SpeedDefined(m, tick)
  {
    if m.position != m.positionPrev then
      m.(actual := Div(7 * m.actual + Div(100000, TicksPerTurn(m, tick)), 8), changeTick := tick,
          positionPrev := m.position)
    else if tick >= (m.changeTick + 200) % TICKS then m.(actual := 0)
    else m
  }

  /**
    Less than a wrap later the tick counter shows its former value and the ticks since, less a wrap if it has
    overflowed.
    */
  lemma TicksAfter(c: nat, n: nat)
    requires c < TICKS && n < TICKS
    ensures (c + n) % TICKS == if c + n < TICKS then c + n else c + n - TICKS
  {
  }

  /**
    Without a change of position the speed is set to zero from 200 ticks after the last change on, if the
    counter does not overflow in between. After an overflow it is not reset any more; and if the 200th tick
    lies beyond the overflow, it is reset at once.
    */
  lemma StandstillIff(m: Motion, n: nat)
    requires m.position == m.positionPrev && m.position < 48 && m.changeTick < TICKS && n < TICKS
    ensures var reset := SpeedCalc(m, (m.changeTick + n) % TICKS) == m.(actual := 0);
      && (SpeedCalc(m, (m.changeTick + n) % TICKS) != m ==> reset)
      && (m.actual != 0 ==>
            ((reset <==> n >= 200) <==>
               if m.changeTick + 200 < TICKS then n < 200 || m.changeTick + n < TICKS
               else n >= 200 || m.changeTick + n >= TICKS))
  {
    TicksAfter(m.changeTick, n);
    TicksAfter(m.changeTick, 200);
  }

  /** The filter's weights: seven parts of the old speed and one of the measured one. */
  lemma FilterIs(m: Motion, tick: nat)
    requires m.position < 48 && m.positionPrev < 48 && m.position != m.positionPrev && SpeedDefined(m, tick)
    ensures var e, measured := SpeedCalc(m, tick), Div(100000, TicksPerTurn(m, tick));
      var sum := 7 * m.actual + measured;
      && e.changeTick == tick && e.positionPrev == m.position
      && (sum >= 0 ==> 8 * e.actual <= sum < 8 * e.actual + 8)
      && (sum <= 0 ==> 8 * e.actual - 8 < sum <= 8 * e.actual)
  {
    hide Div, SpeedDefined;
    var sum := 7 * m.actual + Div(100000, TicksPerTurn(m, tick));
    DivIs(sum, 8, Div(sum, 8));
  }

  /** The filtered speed moves towards the measured one and never past it. */
  lemma FilterStaysBetween(m: Motion, tick: nat)
    requires m.position < 48 && m.positionPrev < 48 && m.position != m.positionPrev && Measurable(m, tick)
    requires 0 <= m.actual
    ensures SpeedDefined(m, tick)
    ensures var measured := Div(100000, TicksPerTurn(m, tick));
      && 0 <= measured <= 100000
      && (m.actual <= measured ==> m.actual <= SpeedCalc(m, tick).actual <= measured)
      && (m.actual >= measured ==> m.actual >= SpeedCalc(m, tick).actual >= measured)
  {
    hide Div, SpeedDefined, FlapIndexWrap, Elapsed;
    SpeedDefinedIff(m, tick);
    SlotsMoved(m.position, m.positionPrev);
    TurnInRange(Elapsed(tick, m.changeTick), FlapIndexWrap(m.position - m.positionPrev));
    var measured := Div(100000, TicksPerTurn(m, tick));
    DivShrinks(100000, TicksPerTurn(m, tick));
    var lo, hi := if m.actual <= measured then m.actual else measured,
        if m.actual <= measured then measured else m.actual;
    DivBounds(7 * m.actual + measured, 8, lo, hi);
  }

  /** Either the ticks did not run backwards, or the filter outweighs a negative measurement. */
  predicate StaysSensible(m: Motion, tick: nat)
    requires m.position < 48 && m.positionPrev < 48
  {
    m.position != m.positionPrev ==>
      SpeedDefined(m, tick)
      && (Elapsed(tick, m.changeTick) >= 1 || 100000 < (7 * m.actual + 8) * (0 - TicksPerTurn(m, tick)))
  }

  /** Exactly then the calculation is defined and its result is a speed again. */
  lemma SpeedStaysInRangeIff(m: Motion, tick: nat)
    requires m.position < 48 && m.positionPrev < 48 && 0 <= m.actual <= 100000
    ensures StaysSensible(m, tick) <==> SpeedDefined(m, tick) && 0 <= SpeedCalc(m, tick).actual <= 100000
    ensures Measurable(m, tick) ==> StaysSensible(m, tick)
  {
    hide Div, SpeedDefined, FlapIndexWrap, Elapsed;
    SpeedDefinedIff(m, tick);
    if m.position != m.positionPrev && SpeedDefined(m, tick) {
      if Elapsed(tick, m.changeTick) >= 1 {
        FilterStaysBetween(m, tick);
      } else {
        SlotsMoved(m.position, m.positionPrev);
        TurnInRange(Elapsed(tick, m.changeTick), FlapIndexWrap(m.position - m.positionPrev));
        NegativeFiltered(m.actual, 0 - TicksPerTurn(m, tick));
      }
    }
  }

  /** So that is when a calculation keeps the ranges. */
  lemma SensedInRangeIff(m: Motion, tick: nat)
    requires InRange(m) && tick < TICKS && SpeedDefined(m, tick)
    ensures InRange(SpeedCalc(m, tick)) <==> StaysSensible(m, tick)
  {
    hide StaysSensible, SpeedDefined, TicksPerTurn, Div, Tuned;
    SpeedStaysInRangeIff(m, tick);
  }

  lemma NegativeFiltered(actual: int, d: int)
    requires 0 <= actual <= 100000 && d > 0
    ensures 0 <= Div(7 * actual + Div(100000, 0 - d), 8) <= 100000 <==> 100000 < (7 * actual + 8) * d
  {
    hide Div;
    DivOfNegative(100000, d);
    DivShrinks(100000, d);
    var q := Div(100000, d);
    DivIs(100000, d, q);
    if q < 7 * actual + 8 {
      ProductMonotone(q + 1, 7 * actual + 8, d);
    } else {
      ProductMonotone(7 * actual + 8, q, d);
    }
    var x := 7 * actual - q;
    if x > -8 {
      DivBounds(if x < 0 then 0 else x, 8, 0, 100000);
      DivIs(x, 8, 0);
    } else {
      DivBounds(x, 8, x, -1);
    }
  }

  lemma SpeedInRange(ticks: int)
    requires ticks != 0
    ensures -100000 <= Div(100000, ticks) <= 100000
  {
    hide Div;
    if ticks > 0 {
      DivShrinks(100000, ticks);
    } else {
      DivOfNegative(100000, 0 - ticks);
      DivShrinks(100000, 0 - ticks);
    }
  }

  lemma DivOfNegative(a: int, d: int)
    requires d > 0 && a >= 0
    ensures Div(a, 0 - d) == 0 - Div(a, d)
  {
  }

  /** What the motor is told: nothing while overridden, else a speed and a decay. */
  datatype Command = Untouched | Drive(speed: int, decay: int)

  ghost function Regulated(m: Motion): (p: PidState)
    requires InRange(m)
    ensures Tuned(p)
  {
    TunedStaysTuned(if m.setpoint == 0 then m.pid.(integral := 0) else m.pid, m.setpoint - m.actual);
    PidCompute(if m.setpoint == 0 then m.pid.(integral := 0) else m.pid, m.setpoint - m.actual)
  }

  ghost function CommandOf(m: Motion): (c: Command)
    requires InRange(m)
  {
    var output := Regulated(m).output;
    var decay := DecayOfSpeed(m.setpoint);
    var forward := FeedForward(m.setpoint, decay);
    if m.overridden then Untouched
    else if m.distance == 0 && m.distancePrev != 0 then Regular(forward, output, decay)
    else if m.backspin > 0 then Drive(-350, 1000)
    else if m.distance == 0 then Drive(0, 0)
    else Regular(forward, output, decay)
  }

  /** A negative correction brakes through the decay, a positive one adds to the speed. */
  function Regular(forward: int, output: int, decay: int): Command {
    if output < 0 then Drive(forward, decay - 4 * output) else Drive(forward + output, decay)
  }

  /** A positive output adds to the speed; a negative one adds four times itself to the decay. */
  lemma RegularIs(forward: int, decay: int, less: int, more: int)
    requires less <= more
    ensures var a, b := Regular(forward, less, decay), Regular(forward, more, decay);
      && a.Drive? && b.Drive? && a.speed <= b.speed && b.decay <= a.decay
      && (0 <= less ==> b.speed - a.speed == more - less && a.decay == b.decay == decay)
      && (more <= 0 ==> a.decay - b.decay == 4 * (more - less) && a.speed == b.speed == forward)
    ensures Regular(forward, 0, decay) == Drive(forward, decay)
  {
  }

  /** A wheel that is slower by measurement is never driven less, nor braked more, than a faster one. */
  lemma SlowerIsDrivenHarder(m: Motion, slow: int)
    requires InRange(m) && InRange(m.(actual := slow)) && slow <= m.actual
    ensures var a, b := CommandOf(m), CommandOf(m.(actual := slow));
      && (a.Untouched? <==> m.overridden) && (b.Untouched? <==> m.overridden)
      && (a.Drive? ==> a.speed <= b.speed && b.decay <= a.decay)
  {
    hide PidCompute, FeedForward, DecayOfSpeed, Regular;
    var p := if m.setpoint == 0 then m.pid.(integral := 0) else m.pid;
    TunedStaysTuned(p, m.setpoint - m.actual);
    TunedStaysTuned(p, m.setpoint - slow);
    OutputMonotone(p, m.setpoint - m.actual, m.setpoint - slow);
    var decay := DecayOfSpeed(m.setpoint);
    RegularIs(FeedForward(m.setpoint, decay), decay, Regulated(m).output, Regulated(m.(actual := slow)).output);
  }

  /** The speed is regulated on the way and at the tick that notices the arrival. */
  predicate Regulates(m: Motion) {
    !m.overridden && if m.distance == 0 then m.distancePrev != 0 else m.backspin == 0
  }

  /** Otherwise the motor is driven backwards with full decay while the backspin lasts, and then left alone. */
  lemma NotRegulated(m: Motion, powered: bool)
    requires InRange(m) && !Regulates(m)
    ensures var e := ControlLoop(m, true);
      && (m.overridden ==> e.duties == m.duties && e.distancePrev == m.distancePrev && e.backspin == m.backspin)
      && (!m.overridden && m.backspin > 0 ==> e.duties == Duties(650, 1000) && e.backspin == m.backspin - 1)
      && (!m.overridden && m.backspin == 0 ==> e.duties == Duties(0, 0) && e.backspin == 0)
      && (!m.overridden ==> e.distancePrev == m.distance)
  {
    hide Regulated, FeedForward, DecayOfSpeed;
    DecayIsShared(true, -350, 1000);
    DecayIsShared(true, 0, 0);
  }

  /**
    In regulation the drive is the shipped table's, corrected by a thousandth of 6000 times the error and 6
    times the integral.
    */
  lemma RegulationIs(m: Motion, powered: bool)
    requires InRange(m) && Regulates(m)
    ensures var p := Regulated(m);
      var sum := 6000 * (m.setpoint - m.actual) + 6 * p.integral;
      && CommandOf(m) == Regular(FeedForward(m.setpoint, DecayOfSpeed(m.setpoint)), p.output, DecayOfSpeed(m.setpoint))
      && ControlLoop(m, powered).pid == p && p.previousError == m.setpoint - m.actual
      && (p.output == 1000 <==> sum >= 1_000_000) && (p.output == -1000 <==> sum <= -1_000_000)
      && (-1000 < p.output < 1000 ==> Thousandth(sum, p.output))
      && (m.setpoint == 0 && -12500 <= -m.actual ==> p.integral == -m.actual)
      && (m.setpoint > 0 && -12500 <= m.pid.integral + m.setpoint - m.actual <= 12500 ==>
            p.integral == m.pid.integral + m.setpoint - m.actual)
  {
    hide PidCompute, FeedForward, DecayOfSpeed, Regular;
    var p := if m.setpoint == 0 then m.pid.(integral := 0) else m.pid;
    TunedStaysTuned(p, m.setpoint - m.actual);
    OutputIs(p, m.setpoint - m.actual);
  }

  ghost function ControlLoop(m: Motion, powered: bool): Motion
    requires InRange(m)
  {
    var arrived := m.distance == 0 && m.distancePrev != 0;
    var regulated := m.(pid := Regulated(m));
    if m.overridden then regulated
    else
      regulated.(
        backspin := if arrived then 25 else if m.backspin > 0 then m.backspin - 1 else 0,
        distancePrev := m.distance,
        duties := DutiesOf(powered, CommandOf(m).speed, CommandOf(m).decay))
  }

  /** Both arguments of the motor driver fit 16 bits, with room to spare. */
  lemma CommandInRange(m: Motion)
    requires InRange(m)
    ensures CommandOf(m).Drive? ==> -350 <= CommandOf(m).speed <= 1900 && 0 <= CommandOf(m).decay <= 5000
  {
    hide Regulated, FeedForward, DecayOfSpeed;
  }

  // ---------------------------------------------------------------- runs

  /** What happens to the motion: the encoder and commands, the periodic functions, the override. */
  datatype Event =
    | Moved(position: nat, positionPrev: nat, distance: nat)
    | Sensed(tick: nat)
    | SetpointTaken
    | Controlled(powered: bool)
    | Overridden(on: bool)

  ghost predicate Possible(m: Motion, e: Event) {
    match e
    case Moved(position, positionPrev, _) => position < 48 && positionPrev < 48
    case Sensed(tick) => tick < TICKS && m.position < 48 && m.positionPrev < 48 && StaysSensible(m, tick)
    case _ => true
  }

  ghost function Step(m: Motion, e: Event): Motion
    requires InRange(m) && Possible(m, e)
  {
    match e
    case Moved(position, positionPrev, distance) =>
      m.(position := position, positionPrev := positionPrev, distance := distance)
    case Sensed(tick) =>
      SpeedDefinedIff(m, tick);
      SpeedCalc(m, tick)
    case SetpointTaken => m.(setpoint := SpeedOfDistance(m.distance))
    case Controlled(powered) => ControlLoop(m, powered)
    case Overridden(on) => m.(overridden := on)
  }

  lemma StepStaysInRange(m: Motion, e: Event)
    requires InRange(m) && Possible(m, e)
    ensures InRange(Step(m, e))
  {
    hide TicksPerTurn, Regulated, Div;
    if e.Sensed? {
      SpeedStaysInRangeIff(m, e.tick);
    }
  }

  /** The states of a run, from the first to the last. */
  ghost predicate IsRun(states: seq<Motion>, events: seq<Event>) {
    && |states| == |events| + 1
    && forall i :: 0 <= i < |events| ==> Follows(states[i], events[i], states[i + 1])
  }

  ghost predicate Follows(m: Motion, e: Event, m': Motion) {
    Possible(m, e) && (InRange(m) ==> m' == Step(m, e))
  }

  /** In every run of the shipped controller everything stays in range. */
  lemma {:induction false} RunStaysInRange(states: seq<Motion>, events: seq<Event>)
    requires IsRun(states, events) && InRange(states[0])
    ensures forall i :: 0 <= i < |states| ==> InRange(states[i])
  {
    hide InRange, Step;
    if |events| > 0 {
      var n := |events| - 1;
      RunStaysInRange(states[..n + 1], events[..n]);
      assert InRange(states[..n + 1][n]);
      assert Follows(states[n], events[n], states[n + 1]);
      StepStaysInRange(states[n], events[n]);
      forall i | 0 <= i < |states| ensures InRange(states[i]) {
        if i <= n { assert states[..n + 1][i] == states[i]; }
      }
    }
  }

  // ---------------------------------------------------------------- arrival

  /** What may be measured, and asked for, between two control ticks while the wheel stays where it is. */
  datatype Measured = Measured(setpoint: int, actual: int, position: nat, positionPrev: nat, changeTick: nat)

  predicate Plausible(r: Measured) {
    0 <= r.setpoint <= 75 && 0 <= r.actual <= 100000 && r.position < 48 && r.positionPrev < 48 && r.changeTick < TICKS
  }

  ghost function Noticed(m: Motion, r: Measured): (m': Motion)
    requires InRange(m) && Plausible(r)
    ensures InRange(m')
  {
    m.(setpoint := r.setpoint, actual := r.actual, position := r.position, positionPrev := r.positionPrev,
       changeTick := r.changeTick)
  }

  ghost predicate AllPlausible(rs: seq<Measured>) {
    forall i :: 0 <= i < |rs| ==> Plausible(rs[i])
  }

  /** The first control tick after the wheel has reached its flap; the motor has power and is not overridden. */
  ghost function Arrived(m: Motion): (m': Motion)
    requires InRange(m)
    ensures InRange(m')
  {
    StepStaysInRange(m, Controlled(true));
    ControlLoop(m, true)
  }

  /** So many control ticks later, with anything measured before each of them. */
  ghost function AtRest(m: Motion, rs: seq<Measured>): (m': Motion)
    requires InRange(m) && AllPlausible(rs)
    ensures InRange(m')
  {
    if rs == [] then m
    else Arrived(Noticed(AtRest(m, rs[..|rs| - 1]), rs[|rs| - 1]))
  }

  lemma ParkedTick(m: Motion)
    requires InRange(m) && m.distance == 0 && !m.overridden
    ensures var m' := Arrived(m);
      && m'.distance == 0 && m'.distancePrev == 0 && !m'.overridden
      && (m.distancePrev != 0 ==> m'.backspin == 25)
      && (m.distancePrev == 0 && m.backspin > 0 ==>
            m'.backspin == m.backspin - 1 && m'.duties == DutiesOf(true, -350, 1000))
      && (m.distancePrev == 0 && m.backspin == 0 ==> m'.backspin == 0 && m'.duties == DutiesOf(true, 0, 0))
  {
    hide Regulated;
  }

  lemma {:induction false} Countdown(m: Motion, rs: seq<Measured>)
    requires InRange(m) && m.distance == 0 && m.distancePrev != 0 && !m.overridden && AllPlausible(rs)
    ensures var e := AtRest(Arrived(m), rs);
      && e.distance == 0 && e.distancePrev == 0 && !e.overridden
      && e.backspin == (if |rs| <= 25 then 25 - |rs| else 0)
      && (0 < |rs| <= 25 ==> e.duties == DutiesOf(true, -350, 1000))
      && (25 < |rs| ==> e.duties == DutiesOf(true, 0, 0))
  {
    hide ControlLoop, Arrived, CommandOf, DutiesOf, Regulated, Tuned;
    if rs == [] {
      ParkedTick(m);
    } else {
      var n := |rs| - 1;
      Countdown(m, rs[..n]);
      ParkedTick(Noticed(AtRest(Arrived(m), rs[..n]), rs[n]));
    }
  }

  lemma BackspinDuties()
    ensures DutiesOf(true, -350, 1000) == Duties(650, 1000) && DutiesOf(true, 0, 0) == Duties(0, 0)
  {
    DecayIsShared(true, -350, 1000);
    DecayIsShared(true, 0, 0);
  }

  /**
    After the tick that notices the arrival, while the wheel stays there, the motor is driven backwards for
    exactly 25 ticks and then reads as not running, whatever the speed control would have asked for.
    */
  lemma BackspinLasts25Ticks(m: Motion, rs: seq<Measured>)
    requires InRange(m) && m.distance == 0 && m.distancePrev != 0 && !m.overridden
    requires rs != [] && AllPlausible(rs)
    ensures var d := AtRest(Arrived(m), rs).duties;
      && (|rs| <= 25 ==> d == Duties(650, 1000))
      && (|rs| > 25 ==> d == Duties(0, 0))
      && (MotorIsRunning(d) <==> |rs| <= 25)
  {
    hide ControlLoop, Arrived, CommandOf, DutiesOf, Regulated, Tuned;
    Countdown(m, rs);
    BackspinDuties();
  }

  // ---------------------------------------------------------------- the module's functions

  method ComputeDecay(setpoint: int32) returns (decay: int32)
    ensures decay as int == DecayOfSpeed(setpoint as int)
  {
    ShippedAxes();
    SpeedDecayInRange(setpoint as int);
    if setpoint == 0 {
      return 1000;
    }
    var d := LinearCompute(DECAY_SPEEDS, DECAY_OUTPUTS, setpoint as int);
    return d as int32;
  }

  method ComputeFeedForward(setpoint: int32, decay: int32) returns (speed: int32)
    ensures speed as int == FeedForward(setpoint as int, decay as int)
  {
    ShippedAxes();
    FeedForwardInRange(setpoint as int, decay as int);
    var forward := BilinearCompute(SPEED_INPUTS, DECAY_INPUTS, PWM_OUTPUTS, setpoint as int, decay as int);
    return forward as int32;
  }

  class MotionControl {
    var encoderRpsX100Setpoint: int32
    var encoderRpsX100Actual: int32
    var flapPosition: nat
    var flapPositionPrev: nat
    var flapPositionChangeTickPrev: nat
    var flapDistance: nat
    var flapDistancePrev: nat
    var motorBackspinTimeoutTick: nat
    var motorControlOverride: bool
    const pid: PidController
    var duties: Duties

    function View(): Motion reads this, pid {
      Motion(encoderRpsX100Setpoint as int, encoderRpsX100Actual as int, flapPosition, flapPositionPrev,
             flapPositionChangeTickPrev, flapDistance, flapDistancePrev, motorBackspinTimeoutTick, motorControlOverride,
             pid.View(), duties)
    }

    ghost predicate Valid() reads this, pid { InRange(View()) }

    /** The module's start: the distance is a whole turn and the motor is held until it is unlocked. */
    constructor ()
      ensures Valid() && fresh(pid)
      ensures View() == Motion(0, 0, 0, 0, 0, 48, 0, 0, true,
                               PidState(6000, 6, 0, 0, 0, 0, 0, 0, -75000, 75000, -1000, 1000, 0), Duties(0, 0))
    {
      var p := new PidController(6000, 6, 0);
      encoderRpsX100Setpoint, encoderRpsX100Actual := 0, 0;
      flapPosition, flapPositionPrev, flapPositionChangeTickPrev := 0, 0, 0;
      flapDistance, flapDistancePrev, motorBackspinTimeoutTick, motorControlOverride := 48, 0, 0, true;
      pid, duties := p, Duties(0, 0);
      new;
      ShippedWindup(0);
      p.OutputLimits(-1000, 1000);
      p.IntegralLimits(-75, 75);
    }

    method EncoderSpeedCalc(sensTick: nat)
      requires Valid() && sensTick < TICKS && SpeedDefined(View(), sensTick)
      modifies this`encoderRpsX100Actual, this`flapPositionChangeTickPrev, this`flapPositionPrev
      ensures View() == SpeedCalc(old(View()), sensTick)
      ensures Valid() <==> StaysSensible(old(View()), sensTick)
      ensures Valid() ==> View() == Step(old(View()), Sensed(sensTick))
    {
      hide Tuned, Div, FlapIndexWrap, SpeedDefined, StaysSensible;
      ghost var m := View();
      SensedInRangeIff(m, sensTick);
      if flapPosition != flapPositionPrev {
        SpeedDefinedIff(m, sensTick);
        SlotsMoved(flapPosition, flapPositionPrev);
        var positionDelta := FlapIndexWrap(flapPosition - flapPositionPrev) as int32;
        var timeDelta := Elapsed(sensTick, flapPositionChangeTickPrev) as int32;
        TurnInRange(timeDelta as int, positionDelta as int);
        var ticksPerRev := Div((48 * timeDelta) as int, positionDelta as int) as int32;
        SpeedInRange(ticksPerRev as int);
        var measured := Div(100000, ticksPerRev as int) as int32;
        DivShrinks(encoderRpsX100Actual as int * 7 + measured as int, 8);
        encoderRpsX100Actual := Div((encoderRpsX100Actual * 7 + measured) as int, 8) as int32;
        flapPositionChangeTickPrev := sensTick;
        flapPositionPrev := flapPosition;
      } else if sensTick >= (flapPositionChangeTickPrev + 200) % TICKS {
        encoderRpsX100Actual := 0;
      }
    }

    method SpeedSetpointSetFromDistance()
      requires Valid()
      modifies this`encoderRpsX100Setpoint
      ensures Valid() && View() == old(View()).(setpoint := SpeedOfDistance(flapDistance))
      ensures View() == Step(old(View()), SetpointTaken)
    {
      ShippedAxes();
      DistanceSpeedInRange(flapDistance);
      var speed := LinearCompute(DISTANCES, DISTANCE_SPEEDS, flapDistance);
      encoderRpsX100Setpoint := speed as int32;
      if flapDistance < 1 {
        encoderRpsX100Setpoint := 0;
      }
    }

    method MotorControlLoop(powered: bool)
      requires Valid()
      modifies this`flapDistancePrev, this`motorBackspinTimeoutTick, this`duties, pid
      ensures Valid() && View() == ControlLoop(old(View()), powered) == Step(old(View()), Controlled(powered))
    {
      hide Tuned, Regulated, DutiesOf, FeedForward, DecayOfSpeed;
      ghost var m := View();
      StepStaysInRange(m, Controlled(powered));
      CommandInRange(m);
      var decay, clSpeed := LoopSpeed();
      if !motorControlOverride {
        if flapDistance == 0 && flapDistancePrev != 0 {
          motorBackspinTimeoutTick := 25;
        } else if motorBackspinTimeoutTick > 0 {
          motorBackspinTimeoutTick := motorBackspinTimeoutTick - 1;
          clSpeed := -350;
          decay := 1000;
        } else if flapDistance == 0 {
          clSpeed := 0;
          decay := 0;
        }
        flapDistancePrev := flapDistance;
        assert CommandOf(m) == Drive(clSpeed as int, decay as int);
        duties := MotorControl(powered, clSpeed as int16, decay as int16);
      }
      assert View() == ControlLoop(m, powered);
    }

    /** The first half of the loop: what the regulation asks for. */
    method LoopSpeed() returns (decay: int32, clSpeed: int32)
      requires Valid()
      modifies pid
      ensures View() == old(View()).(pid := Regulated(old(View())))
      ensures Regular(FeedForward(encoderRpsX100Setpoint as int, DecayOfSpeed(encoderRpsX100Setpoint as int)),
                      pid.output as int, DecayOfSpeed(encoderRpsX100Setpoint as int)) ==
                          Drive(clSpeed as int, decay as int)
    {
      hide AntiWindup, PidCompute, PidFits, DecayOfSpeed, FeedForward;
      if encoderRpsX100Setpoint == 0 {
        pid.integral := 0;
      }
      decay := ComputeDecay(encoderRpsX100Setpoint);
      TunedStaysTuned(pid.View(), encoderRpsX100Setpoint as int - encoderRpsX100Actual as int);
      var output := pid.Compute(encoderRpsX100Setpoint - encoderRpsX100Actual);
      clSpeed := ComputeFeedForward(encoderRpsX100Setpoint, decay);
      if output < 0 {
        decay := decay - 4 * output;
      } else {
        clSpeed := clSpeed + output;
      }
    }
  }
}
