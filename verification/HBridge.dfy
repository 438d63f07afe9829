/** The motor's bridge: a speed and a decay become the duty cycles of its two halves. */
module HBridge {
  import opened Arithmetic

  /** The two compare registers of the timer. */
  datatype Duties = Duties(ccr3: nat, ccr4: nat)

  /** Numbers that fit the arguments' type. */
  newtype int16 = x | -0x8000 <= x < 0x8000

  function Limited(x: int, lo: int, hi: int): (r: int)
    requires lo <= hi
    ensures lo <= r <= hi && (lo <= x <= hi ==> r == x)
  {
    if x < lo then lo else if x > hi then hi else x
  }

  /** The speed that is really driven: none without the motor supply, and at most the full scale. */
  function DrivenSpeed(powered: bool, speed: int): (s: int)
    ensures -1000 <= s <= 1000
  {
    if powered then Limited(speed, -1000, 1000) else 0
  }

  /**
    Both duty cycles are percentages in tenths. For every decay the half that faces the direction of motion
    is on for exactly the speed longer than the other, although two divisions were truncated.
    */
  method MotorControl(powered: bool, speed: int16, decay: int16) returns (d: Duties)
    ensures d.ccr3 <= 1000 && d.ccr4 <= 1000
    ensures d.ccr3 - d.ccr4 == DrivenSpeed(powered, speed as int)
    ensures d == DutiesOf(powered, speed as int, decay as int)
  {
    hide Part;
    var s, c := speed, decay;
    if !powered {
      s, c := 0, 0;
    }
    s := if s < -1000 then -1000 else if s > 1000 then 1000 else s;
    c := if c < 0 then 0 else if c > 1000 then 1000 else c;
    var pwm := (if s >= 0 then s else -s) as nat;
    var slow := c as nat;
    SplitIsExact(pwm, slow);
    var pwm1 := Part(1000 - pwm, slow);
    var pwm2 := Part(pwm, 1000 - slow) + slow;
    d := if s >= 0 then Duties(pwm2, pwm1) else Duties(pwm1, pwm2);
  }

  /** The two halves, by their ends: what the decay leaves on, and the speed above it. */
  function DutiesOf(powered: bool, speed: int, decay: int): (d: Duties)
    ensures d.ccr3 - d.ccr4 == DrivenSpeed(powered, speed)
    ensures d.ccr3 <= 1000 && d.ccr4 <= 1000
  {
    var s := DrivenSpeed(powered, speed);
    var slow := if powered then Limited(decay, 0, 1000) else 0;
    SplitIsExact(Abs(s), slow);
    var low := Part(1000 - Abs(s), slow);
    if s >= 0 then Duties(low + s, low) else Duties(low, low - s)
  }

  /** The shorter of the two duty cycles. */
  function Shared(d: Duties): nat {
    if d.ccr3 < d.ccr4 then d.ccr3 else d.ccr4
  }

  /**
    Of the time in which the speed is not driven, both halves are on for the share that the decay asks for, in
    tenths of a percent, rounded down; so a higher decay never shortens it. Without the motor supply both
    are off.
    */
  lemma DecayIsShared(powered: bool, speed: int, decay: int)
    ensures var idle := (1000 - Abs(DrivenSpeed(powered, speed))) * Limited(decay, 0, 1000);
      var shared := Shared(DutiesOf(powered, speed, decay));
      powered ==> 1000 * shared <= idle < 1000 * shared + 1000
    ensures !powered ==> DutiesOf(powered, speed, decay) == Duties(0, 0)
    ensures forall more :: decay <= more ==>
      Shared(DutiesOf(powered, speed, decay)) <= Shared(DutiesOf(powered, speed, more))
  {
    hide DutiesOf, Shared, Part;
    var idle := 1000 - Abs(DrivenSpeed(powered, speed));
    SharedIs(powered, speed, decay);
    PartIs(idle, Limited(decay, 0, 1000));
    forall more | decay <= more
      ensures Shared(DutiesOf(powered, speed, decay)) <= Shared(DutiesOf(powered, speed, more))
    {
      SharedIs(powered, speed, more);
      PartIs(idle, Limited(more, 0, 1000));
      ProductMonotone(Limited(decay, 0, 1000), Limited(more, 0, 1000), idle);
    }
  }

  lemma SharedIs(powered: bool, speed: int, decay: int)
    ensures powered ==>
      Shared(DutiesOf(powered, speed, decay)) == Part(1000 - Abs(DrivenSpeed(powered, speed)), Limited(decay, 0, 1000))
    ensures !powered ==> DutiesOf(powered, speed, decay) == Duties(0, 0) && Shared(Duties(0, 0)) == 0
  {
    hide Part;
    if !powered {
      PartIs(1000, 0);
    }
  }

  lemma PartIs(a: nat, share: nat)
    ensures 1000 * Part(a, share) <= a * share < 1000 * Part(a, share) + 1000
  {
    QuotientIs(a * share, 1000, Part(a, share));
  }

  lemma SplitIsExact(pwm: nat, decay: nat)
    requires pwm <= 1000 && decay <= 1000
    ensures Part(pwm, 1000 - decay) + decay == Part(1000 - pwm, decay) + pwm
    ensures Part(1000 - pwm, decay) + pwm <= 1000
  {
    ProductMonotone(decay, 1000, 1000 - pwm);
    assert pwm * (1000 - decay) == (1000 - pwm) * decay + 1000 * (pwm - decay);
    assert ((1000 - pwm) * decay + 1000 * (pwm - decay)) / 1000 == (1000 - pwm) * decay / 1000 + (pwm - decay);
  }

  /** A share of a number, in tenths of a percent, rounded down. */
  function Part(a: nat, share: nat): nat {
    assert a * share >= 0;
    a * share / 1000
  }

  predicate MotorIsRunning(d: Duties) {
    d.ccr3 != d.ccr4
  }

  /** The motor reads as running exactly when a speed is driven. */
  lemma RunningIff(powered: bool, speed: int, decay: int)
    ensures MotorIsRunning(DutiesOf(powered, speed, decay)) <==> powered && speed != 0
  {
  }
}
