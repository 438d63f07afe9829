/**
  The flap wheel's position: a quadrature decoder that refuses to count backwards, homing on the zero
  mark, and the distance still to go to the flap that was asked for.
  */
module FlapWheel {
  import opened Arithmetic

  const SYMBOL_CNT: nat := 48

  /** One reading of the three encoder channels. */
  datatype Sample = Sample(a: bool, b: bool, z: bool)

  /** The part of the configuration that matters here. */
  datatype Config = Config(encoderOffset: nat, minimumRotation: nat)

  datatype Wheel = Wheel(
    backspin: int, zeroLockout: bool, zeroPrev: bool, oldPattern: nat,  // the decoder's statics
    position: nat, positionPrev: nat, setpoint: nat, distance: nat, extendRevolution: bool
  )

  /** The decoder and the configuration are within the ranges of their types and setters. */
  ghost predicate Sane(w: Wheel, cfg: Config) {
    && -128 <= w.backspin < 128 && w.oldPattern < 4
    && w.position < SYMBOL_CNT && w.setpoint < 256
    && cfg.encoderOffset < SYMBOL_CNT && cfg.minimumRotation <= SYMBOL_CNT
  }

  // ---------------------------------------------------------------- wrapping

  /** The index calculation, with C's remainder. */
  function FlapIndexWrap(index: int): int {
    Mod(Mod(index, 48) + 48, 48)
  }

  lemma WrapIsResidue(index: int)
    ensures FlapIndexWrap(index) == index % 48
  {
    hide Mod;
    RemainderOf48(index);
    RemainderOf48(Mod(index, 48) + 48);
    if index < 0 {
      assert (48 - (0 - index) % 48) % 48 == index % 48;
    }
  }

  /** C's remainder of a negative number is the negated remainder of its absolute value. */
  lemma RemainderOf48(index: int)
    ensures Mod(index, 48) == if index < 0 then 0 - (0 - index) % 48 else index % 48
  {
  }

  // ---------------------------------------------------------------- the code, on values

  function DistanceUpdate(w: Wheel, cfg: Config): Wheel {
    WrapIsResidue(w.setpoint - w.position);
    var distance := FlapIndexWrap(w.setpoint - w.position);
    if w.extendRevolution && distance < cfg.minimumRotation then w.(distance := distance + SYMBOL_CNT)
    else w.(distance := distance, extendRevolution := false)
  }

  function EncoderIncrement(w: Wheel, cfg: Config): Wheel {
    WrapIsResidue(w.position + 1);
    DistanceUpdate(w.(positionPrev := w.position, position := FlapIndexWrap(w.position + 1)), cfg)
  }

  function EncoderZero(w: Wheel, cfg: Config): Wheel {
    DistanceUpdate(w.(positionPrev := w.position, position := cfg.encoderOffset), cfg)
  }

  /** The command to show a character. */
  function CharacterSet(w: Wheel, cfg: Config, character: nat): Wheel {
    var w' := DistanceUpdate(w.(setpoint := character), cfg);
    if w'.distance < cfg.minimumRotation then w'.(extendRevolution := true, distance := w'.distance + SYMBOL_CNT)
        else w'
  }

  /** Movement between two readings of the quadrature channels; 2 marks an impossible one. */
  const QEM: seq<int> := [0, -1, 1, 2, 1, 0, 2, -1, -1, 2, 0, 1, 2, 1, -1, 0]

  function Pattern(s: Sample): (p: nat)
    ensures p < 4
  {
    (if s.a then 1 else 0) + if s.b then 2 else 0
  }

  function Qem(oldPattern: nat, s: Sample): (q: int)
    requires oldPattern < 4
    ensures -1 <= q <= 2
  {
    QEM[4 * oldPattern + Pattern(s)]
  }

  /** How far one reading moves the shaft; an impossible reading does not count. */
  function Move(oldPattern: nat, s: Sample): (m: int)
    requires oldPattern < 4
    ensures -1 <= m <= 1
  {
    var q := Qem(oldPattern, s);
    if q == 2 then 0 else q
  }

  /** The zero mark has just been passed, and homing is not locked out. */
  predicate Homes(w: Wheel, s: Sample)
    requires w.oldPattern < 4
  {
    Qem(w.oldPattern, s) != 2 && !s.z && w.zeroPrev && !w.zeroLockout
  }

  predicate Increments(w: Wheel, s: Sample)
    requires w.oldPattern < 4
  {
    !Homes(w, s) && Qem(w.oldPattern, s) == 1 && w.backspin >= 0
  }

  function PositionUpdate(w: Wheel, cfg: Config, s: Sample): (w': Wheel)
    requires w.oldPattern < 4
    ensures w'.oldPattern < 4
  {
    var qem := Qem(w.oldPattern, s);
    var seen := w.(oldPattern := Pattern(s));
    if qem == 2 then seen else Counted(seen, cfg, s, qem).(zeroPrev := s.z)
  }

  /** What a possible reading does: home, wind the backspin counter, or advance by one slot. */
  function Counted(w: Wheel, cfg: Config, s: Sample, qem: int): (w': Wheel)
    ensures w'.oldPattern == w.oldPattern
  {
    if !s.z && w.zeroPrev && !w.zeroLockout then
      EncoderZero(w, cfg).(backspin := 0, zeroLockout := true)
    else if w.backspin < 0 || qem != 1 then
      w.(backspin := Signed(w.backspin + qem, 128))
    else
      var moved := EncoderIncrement(w, cfg);
      moved.(zeroLockout := moved.zeroLockout && moved.position <= 5)
  }

  // ---------------------------------------------------------------- runs of samples

  /** The wheel after a sequence of samples. */
  function After(w: Wheel, cfg: Config, samples: seq<Sample>): (w': Wheel)
    requires w.oldPattern < 4
    ensures w'.oldPattern < 4
  {
    if samples == [] then w
    else PositionUpdate(After(w, cfg, samples[..|samples| - 1]), cfg, samples[|samples| - 1])
  }

  /** How many of the samples advanced the position by one slot. */
  function IncrementCount(w: Wheel, cfg: Config, samples: seq<Sample>): nat
    requires w.oldPattern < 4
  {
    if samples == [] then 0
    else
      var n := |samples| - 1;
      IncrementCount(w, cfg, samples[..n]) + if Increments(After(w, cfg, samples[..n]), samples[n]) then 1 else 0
  }

  ghost predicate NoHoming(w: Wheel, cfg: Config, samples: seq<Sample>)
    requires w.oldPattern < 4
  {
    forall n :: 0 <= n < |samples| ==> !Homes(After(w, cfg, samples[..n]), samples[n])
  }

  /** The net movement of the shaft. */
  function NetMovement(oldPattern: nat, samples: seq<Sample>): int
    requires oldPattern < 4
  {
    if samples == [] then 0
    else
      var n := |samples| - 1;
      NetMovement(oldPattern, samples[..n]) + Move(LastPattern(oldPattern, samples[..n]), samples[n])
  }

  function LastPattern(oldPattern: nat, samples: seq<Sample>): (p: nat)
    requires oldPattern < 4
    ensures p < 4
  {
    if samples == [] then oldPattern else Pattern(samples[|samples| - 1])
  }

  /** The farthest forward the shaft has been, counted from a start that lies -b0 steps behind zero. */
  function Farthest(b0: int, oldPattern: nat, samples: seq<Sample>): (m: nat)
    requires oldPattern < 4
    ensures b0 + NetMovement(oldPattern, samples) <= m
  {
    var here := b0 + NetMovement(oldPattern, samples);
    var before := if samples == [] then 0 else Farthest(b0, oldPattern, samples[..|samples| - 1]);
    if here > before then here else before
  }

  /** How far the shaft is behind the farthest it has been, as a number not above zero. */
  function Behind(b0: int, oldPattern: nat, samples: seq<Sample>): (b: int)
    requires oldPattern < 4
    ensures b <= 0
  {
    b0 + NetMovement(oldPattern, samples) - Farthest(b0, oldPattern, samples)
  }

  /** At no time is the shaft more than 128 steps behind the farthest it has been. */
  ghost predicate Fits(b0: int, oldPattern: nat, samples: seq<Sample>)
    requires oldPattern < 4
  {
    forall n :: 0 <= n <= |samples| ==> Behind(b0, oldPattern, samples[..n]) >= -128
  }

  // ---------------------------------------------------------------- the running maximum

  /** What one reading does to the counter and the position when it does not home. */
  lemma StepCases(w: Wheel, cfg: Config, s: Sample)
    requires Sane(w, cfg) && w.backspin <= 0 && !Homes(w, s)
    ensures Increments(w, s) <==> w.backspin == 0 && Move(w.oldPattern, s) == 1
    ensures Increments(w, s) ==> PositionUpdate(w, cfg, s).backspin == 0
    ensures !Increments(w, s) ==> PositionUpdate(w, cfg, s).backspin == Signed(w.backspin + Move(w.oldPattern, s), 128)
  {
    hide Qem, Pattern, FlapIndexWrap, Signed;
  }

  /** What one reading does to the position when it does not home. */
  lemma PositionCases(w: Wheel, cfg: Config, s: Sample)
    requires w.oldPattern < 4 && !Homes(w, s)
    ensures PositionUpdate(w, cfg, s).position == if Increments(w, s) then (w.position + 1) % 48 else w.position
  {
    hide Qem, Pattern, Mod, Signed;
    WrapIsResidue(w.position + 1);
  }

  lemma StaysSane(w: Wheel, cfg: Config, s: Sample)
    requires Sane(w, cfg)
    ensures Sane(PositionUpdate(w, cfg, s), cfg)
  {
    hide Qem, Mod, Signed;
    WrapIsResidue(w.position + 1);
  }

  lemma {:induction false} RunStaysSane(w: Wheel, cfg: Config, samples: seq<Sample>)
    requires Sane(w, cfg)
    ensures Sane(After(w, cfg, samples), cfg)
    ensures After(w, cfg, samples).oldPattern == LastPattern(w.oldPattern, samples)
  {
    hide PositionUpdate, Pattern, FlapIndexWrap;
    if samples != [] {
      var n := |samples| - 1;
      RunStaysSane(w, cfg, samples[..n]);
      StaysSane(After(w, cfg, samples[..n]), cfg, samples[n]);
      PatternKept(After(w, cfg, samples[..n]), cfg, samples[n]);
    }
  }

  lemma PatternKept(w: Wheel, cfg: Config, s: Sample)
    requires w.oldPattern < 4
    ensures PositionUpdate(w, cfg, s).oldPattern == Pattern(s)
  {
    hide Qem, Pattern, FlapIndexWrap, Signed;
  }

  lemma PrefixesAgree(w: Wheel, cfg: Config, samples: seq<Sample>)
    requires w.oldPattern < 4 && samples != []
    ensures NoHoming(w, cfg, samples) ==> NoHoming(w, cfg, samples[..|samples| - 1])
    ensures Fits(w.backspin, w.oldPattern, samples) <==>
      Fits(w.backspin, w.oldPattern, samples[..|samples| - 1]) && Behind(w.backspin, w.oldPattern, samples) >= -128
  {
    hide After, Homes, Behind;
    var before := samples[..|samples| - 1];
    assert samples[..|samples|] == samples;
    assert forall k :: 0 <= k <= |before| ==> before[..k] == samples[..k];
  }

  /** The run and the shaft, one reading further. */
  lemma LastReading(w: Wheel, cfg: Config, samples: seq<Sample>)
    requires w.oldPattern < 4 && samples != []
    ensures var n := |samples| - 1;
      var before := samples[..n];
      var b0, p := w.backspin, w.oldPattern;
      && After(w, cfg, samples) == PositionUpdate(After(w, cfg, before), cfg, samples[n])
      && IncrementCount(w, cfg, samples)
        == IncrementCount(w, cfg, before) + (if Increments(After(w, cfg, before), samples[n]) then 1 else 0)
      && NetMovement(p, samples) == NetMovement(p, before) + Move(LastPattern(p, before), samples[n])
      && Farthest(b0, p, samples)
        == (if b0 + NetMovement(p, samples) > Farthest(b0, p, before)
            then b0 + NetMovement(p, samples) else Farthest(b0, p, before))
  {
    hide PositionUpdate, Increments, Move, LastPattern;
  }

  /**
    The decoder's law. Between homing events, as long as the shaft is never turned back by more than the
    8-bit counter can hold, the number of slots counted is the running maximum of the shaft's movement,
    and the counter is how far the shaft is behind that maximum. So turning back and forward again counts
    no slot twice.
    */
  lemma {:induction false} CountsRunningMaximum(w: Wheel, cfg: Config, samples: seq<Sample>)
    requires Sane(w, cfg) && w.backspin <= 0
    requires NoHoming(w, cfg, samples) && Fits(w.backspin, w.oldPattern, samples)
    ensures IncrementCount(w, cfg, samples) == Farthest(w.backspin, w.oldPattern, samples)
    ensures IncrementCount(w, cfg, samples) + After(w, cfg, samples).backspin ==
      w.backspin + NetMovement(w.oldPattern, samples)
    ensures After(w, cfg, samples).backspin <= 0
  {
    hide PositionUpdate, Pattern, Move, Homes, Increments, Signed, LastPattern, NetMovement, Farthest, After,
        IncrementCount;
    if samples == [] {
      NothingRead(w, cfg);
    } else {
      var n := |samples| - 1;
      LastReading(w, cfg, samples);
      PrefixesAgree(w, cfg, samples);
      CountsRunningMaximum(w, cfg, samples[..n]);
      RunStaysSane(w, cfg, samples[..n]);
      var e := After(w, cfg, samples[..n]);
      StepCases(e, cfg, samples[n]);
    }
  }

  /** The position is the number of counted slots further on, around the wheel. */
  lemma {:induction false} PositionAdvances(w: Wheel, cfg: Config, samples: seq<Sample>)
    requires Sane(w, cfg) && NoHoming(w, cfg, samples)
    ensures After(w, cfg, samples).position == (w.position + IncrementCount(w, cfg, samples)) % 48
  {
    hide PositionUpdate, Pattern, FlapIndexWrap, Homes, Increments, Fits;
    if samples != [] {
      var n := |samples| - 1;
      PrefixesAgree(w, cfg, samples);
      PositionAdvances(w, cfg, samples[..n]);
      PositionCases(After(w, cfg, samples[..n]), cfg, samples[n]);
      OneMoreSlot(w.position + IncrementCount(w, cfg, samples[..n]));
    }
  }

  lemma NothingRead(w: Wheel, cfg: Config)
    requires Sane(w, cfg) && w.backspin <= 0
    ensures After(w, cfg, []) == w && IncrementCount(w, cfg, []) == 0
    ensures NetMovement(w.oldPattern, []) == 0 && Farthest(w.backspin, w.oldPattern, []) == 0
    ensures Fits(w.backspin, w.oldPattern, [])
  {
  }

  lemma OneMoreSlot(x: nat)
    ensures (x % 48 + 1) % 48 == (x + 1) % 48
  {
  }

  /** Conversely, the first time the shaft is turned back too far the counter wraps to a positive value. */
  lemma {:induction false} CounterStaysBehindIff(w: Wheel, cfg: Config, samples: seq<Sample>)
    requires Sane(w, cfg) && w.backspin <= 0 && NoHoming(w, cfg, samples)
    ensures (forall n :: 0 <= n <= |samples| ==> After(w, cfg, samples[..n]).backspin <= 0) <==>
      Fits(w.backspin, w.oldPattern, samples)
  {
    hide After, Homes, Behind;
    if samples == [] {
      NothingRead(w, cfg);
    } else {
      var n := |samples| - 1;
      var before := samples[..n];
      PrefixesAgree(w, cfg, samples);
      CounterStaysBehindIff(w, cfg, before);
      assert samples[..n + 1] == samples;
      assert forall k :: 0 <= k <= n ==> before[..k] == samples[..k];
      if Fits(w.backspin, w.oldPattern, samples) {
        CountsRunningMaximum(w, cfg, samples);
      } else if Fits(w.backspin, w.oldPattern, before) {
        WrapsWhenTooFarBack(w, cfg, samples);
      }
    }
  }

  lemma WrapsWhenTooFarBack(w: Wheel, cfg: Config, samples: seq<Sample>)
    requires Sane(w, cfg) && w.backspin <= 0 && NoHoming(w, cfg, samples) && samples != []
    requires Fits(w.backspin, w.oldPattern, samples[..|samples| - 1])
      && Behind(w.backspin, w.oldPattern, samples) < -128
    ensures After(w, cfg, samples).backspin == 127
  {
    hide PositionUpdate, Pattern, Move, Homes, Increments, Signed, Fits, LastPattern, NetMovement, Farthest, After,
        IncrementCount;
    var n := |samples| - 1;
    LastReading(w, cfg, samples);
    PrefixesAgree(w, cfg, samples);
    CountsRunningMaximum(w, cfg, samples[..n]);
    RunStaysSane(w, cfg, samples[..n]);
    var e := After(w, cfg, samples[..n]);
    TooFarBack(e, cfg, samples[n]);
  }

  lemma TooFarBack(w: Wheel, cfg: Config, s: Sample)
    requires Sane(w, cfg) && w.backspin <= 0 && !Homes(w, s)
    requires w.backspin + Move(w.oldPattern, s) < -128
    ensures PositionUpdate(w, cfg, s).backspin == 127
  {
    hide PositionUpdate, Pattern, Qem, Increments;
    StepCases(w, cfg, s);
    assert Signed(-129, 128) == 127;
  }

  // ---------------------------------------------------------------- the decoder table and the two channels

  /**
    A turn of the encoder disc takes the two channels through four phases: both off, b on, both on, a on.
    Between neighbouring phases one channel changes.
    */
  function Phase(s: Sample): (phase: nat)
    ensures phase < 4
  {
    if s.b then (if s.a then 2 else 1) else (if s.a then 3 else 0)
  }

  /** Each entry of the table is the movement between the phases; it is 2 where both channels have changed. */
  lemma TableIsMovement(before: Sample, s: Sample)
    ensures Qem(Pattern(before), s) == 0 <==> s.a == before.a && s.b == before.b
    ensures Qem(Pattern(before), s) == 2 <==> s.a != before.a && s.b != before.b
    ensures Qem(Pattern(before), s) == 1 <==> Phase(s) == (Phase(before) + 1) % 4
    ensures Qem(Pattern(before), s) == -1 <==> Phase(before) == (Phase(s) + 1) % 4
  {
  }

  /** The reading before the k-th, beginning with the one that the decoder remembers. */
  function Previous(first: Sample, samples: seq<Sample>, k: nat): Sample
    requires k <= |samples|
  {
    if k == 0 then first else samples[k - 1]
  }

  /** Nowhere do both channels change at once. */
  ghost predicate Possible(first: Sample, samples: seq<Sample>) {
    forall k :: 0 <= k < |samples| ==>
      samples[k].a == Previous(first, samples, k).a || samples[k].b == Previous(first, samples, k).b
  }

  /**
    Without an impossible reading the net movement is the difference of the last and the first phase, around
    the turn.
    */
  lemma {:induction false} MovementIsPhase(first: Sample, samples: seq<Sample>)
    requires Possible(first, samples)
    ensures (Phase(first) + NetMovement(Pattern(first), samples)) % 4 == Phase(Previous(first, samples, |samples|))
  {
    hide Pattern, Phase, Possible, Move;
    if samples == [] {
      PhaseIsSmall(first);
    } else {
      var n := |samples| - 1;
      LastOfPossible(first, samples);
      MovementIsPhase(first, samples[..n]);
      MoveIsPhase(Previous(first, samples, n), samples[n], Phase(first) + NetMovement(Pattern(first), samples[..n]));
    }
  }

  lemma LastOfPossible(first: Sample, samples: seq<Sample>)
    requires Possible(first, samples) && samples != []
    ensures var n := |samples| - 1;
      var before := Previous(first, samples, n);
      && Possible(first, samples[..n]) && Previous(first, samples[..n], n) == before
      && LastPattern(Pattern(first), samples[..n]) == Pattern(before)
      && (samples[n].a == before.a || samples[n].b == before.b)
  {
    hide Pattern;
    var n := |samples| - 1;
    assert forall k :: 0 <= k <= n ==> Previous(first, samples[..n], k) == Previous(first, samples, k);
  }

  lemma PhaseIsSmall(s: Sample)
    ensures Phase(s) % 4 == Phase(s)
  {
  }

  lemma MoveIsPhase(before: Sample, s: Sample, x: int)
    requires (s.a == before.a || s.b == before.b) && x % 4 == Phase(before)
    ensures (x + Move(Pattern(before), s)) % 4 == Phase(s)
  {
    hide Pattern, Qem;
    TableIsMovement(before, s);
  }

  /** While the channels do not change, nothing is counted, forwards or backwards. */
  lemma {:induction false} RestCountsNothing(w: Wheel, cfg: Config, first: Sample, samples: seq<Sample>)
    requires w.oldPattern == Pattern(first) && NoHoming(w, cfg, samples)
    requires -128 <= w.backspin < 128
    requires forall k :: 0 <= k < |samples| ==> samples[k].a == first.a && samples[k].b == first.b
    ensures var e := After(w, cfg, samples);
      e == w.(zeroPrev := e.zeroPrev) && IncrementCount(w, cfg, samples) == 0
  {
    hide PositionUpdate, Pattern, Homes, Increments;
    if samples != [] {
      var n := |samples| - 1;
      PrefixesAgree(w, cfg, samples);
      RestCountsNothing(w, cfg, first, samples[..n]);
      RestingReading(After(w, cfg, samples[..n]), cfg, first, samples[n]);
    }
  }

  lemma RestingReading(w: Wheel, cfg: Config, first: Sample, s: Sample)
    requires w.oldPattern == Pattern(first) && !Homes(w, s) && s.a == first.a && s.b == first.b
    requires -128 <= w.backspin < 128
    ensures PositionUpdate(w, cfg, s) == w.(zeroPrev := s.z) && !Increments(w, s)
  {
    hide Qem, FlapIndexWrap, Signed;
    TableIsMovement(first, s);
    assert Pattern(s) == Pattern(first);
    assert Signed(w.backspin + 0, 128) == w.backspin;
  }

  /** An impossible reading is forgotten but for the pattern: it neither counts nor homes. */
  lemma ImpossibleReading(w: Wheel, cfg: Config, before: Sample, s: Sample)
    requires w.oldPattern == Pattern(before) && s.a != before.a && s.b != before.b
    ensures PositionUpdate(w, cfg, s) == w.(oldPattern := Pattern(s)) && !Homes(w, s) && !Increments(w, s)
  {
    hide Pattern, FlapIndexWrap, Signed;
    TableIsMovement(before, s);
  }
}
