/**
  Travelling to a flap: the distance left, the extension of short rotations, homing, and the module that
  keeps all this in its context.
  */
module FlapMotion {
  import opened Arithmetic
  import opened FlapWheel

  /** The slots from the position to the setpoint, the short way forward. */
  function Residue(w: Wheel): (r: nat)
    ensures r < 48
  {
    (w.setpoint - w.position) % 48
  }

  /** The distance is the short way, plus one turn while a rotation is being extended. */
  ghost predicate DistanceFits(w: Wheel, cfg: Config) {
    && Sane(w, cfg)
    && w.distance == Residue(w) + (if w.extendRevolution then 48 else 0)
    && (w.extendRevolution ==> Residue(w) < cfg.minimumRotation)
  }

  // ---------------------------------------------------------------- a command

  /** So many slots on from a position is the flap that a setpoint names. */
  predicate EndsAt(position: nat, distance: nat, setpoint: nat) {
    (position + distance) % 48 == setpoint % 48
  }

  /**
    Whatever the wheel was doing, also in the middle of an extended turn, a character command sets the
    distance to the smallest one that ends at the character and is not below the minimum rotation.
    */
  lemma CommandSetsLeastDistance(w: Wheel, cfg: Config, character: nat)
    requires Sane(w, cfg) && character < 256
    ensures DistanceFits(CharacterSet(w, cfg, character), cfg)
    ensures cfg.minimumRotation <= CharacterSet(w, cfg, character).distance
    ensures EndsAt(w.position, CharacterSet(w, cfg, character).distance, character)
    ensures forall d: nat ::
      cfg.minimumRotation <= d && EndsAt(w.position, d, character) ==> CharacterSet(w, cfg, character).distance <= d
    ensures CharacterSet(w, cfg, character).distance < cfg.minimumRotation + 48
  {
    hide FlapIndexWrap, EndsAt;
    WrapIsResidue(character - w.position);
    var r := (character - w.position) % 48;
    ResidueReaches(w.position, character);
    forall d: nat | cfg.minimumRotation <= d && EndsAt(w.position, d, character)
      ensures CharacterSet(w, cfg, character).distance <= d
    {
      ResidueIsLeast(w.position, character, d);
    }
  }

  lemma ResidueReaches(position: nat, setpoint: nat)
    ensures EndsAt(position, (setpoint - position) % 48, setpoint)
    ensures EndsAt(position, (setpoint - position) % 48 + 48, setpoint)
  {
  }

  lemma ResidueIsLeast(position: nat, setpoint: nat, d: nat)
    requires EndsAt(position, d, setpoint)
    ensures d >= (setpoint - position) % 48
    ensures d == (setpoint - position) % 48 || d >= (setpoint - position) % 48 + 48
  {
    assert (setpoint - position) % 48 == d % 48;
  }

  // ---------------------------------------------------------------- travelling

  /** What is left of a distance after some slots; past the setpoint the next turn begins. */
  function Left(distance: nat, slots: nat): (left: nat)
    ensures slots == 0 ==> left == distance
  {
    if slots <= distance then distance - slots else (distance - slots) % 48
  }

  lemma OneSlotNearer(w: Wheel, cfg: Config)
    requires DistanceFits(w, cfg) && cfg.minimumRotation <= 47
    ensures DistanceFits(EncoderIncrement(w, cfg), cfg)
    ensures EncoderIncrement(w, cfg).distance == if w.distance > 0 then w.distance - 1 else 47
    ensures EncoderIncrement(w, cfg).setpoint == w.setpoint
  {
    hide FlapIndexWrap;
    WrapIsResidue(w.position + 1);
    var p := (w.position + 1) % 48;
    WrapIsResidue(w.setpoint - p);
    ResidueShrinks(w.position, w.setpoint);
  }

  /**
    The position before stays known: a counted slot is one step from it, and homing starts from where the
    wheel was.
    */
  lemma LeavesPosition(w: Wheel, cfg: Config)
    requires Sane(w, cfg)
    ensures EncoderIncrement(w, cfg).positionPrev == w.position == EncoderZero(w, cfg).positionPrev
    ensures FlapIndexWrap(EncoderIncrement(w, cfg).position - EncoderIncrement(w, cfg).positionPrev) == 1
    ensures EncoderZero(w, cfg).position == cfg.encoderOffset
  {
    hide FlapIndexWrap;
    WrapIsResidue(w.position + 1);
    WrapIsResidue((w.position + 1) % 48 - w.position);
  }

  lemma ResidueShrinks(position: nat, setpoint: nat)
    requires position < 48
    ensures (setpoint - (position + 1) % 48) % 48
      == if (setpoint - position) % 48 > 0 then (setpoint - position) % 48 - 1 else 47
  {
  }

  lemma StepIsIncrement(w: Wheel, cfg: Config, s: Sample)
    requires Sane(w, cfg) && !Homes(w, s)
    ensures var w' := PositionUpdate(w, cfg, s);
      var same := w'.(backspin := 0, zeroLockout := false, zeroPrev := false, oldPattern := 0, positionPrev := 0);
      var moved := if Increments(w, s) then EncoderIncrement(w, cfg) else w;
      same == moved.(backspin := 0, zeroLockout := false, zeroPrev := false, oldPattern := 0, positionPrev := 0)
  {
    hide Qem, Pattern, FlapIndexWrap, Signed;
  }

  lemma LeftOneMore(distance: nat, slots: nat)
    ensures Left(distance, slots + 1) == if Left(distance, slots) > 0 then Left(distance, slots) - 1 else 47
  {
    var x := distance - slots;
    assert (x - 1) % 48 == if x % 48 > 0 then x % 48 - 1 else 47;
  }

  /** Between homing events every counted slot lowers the distance by exactly one until it is zero. */
  lemma {:induction false} DistanceCountsDown(w: Wheel, cfg: Config, samples: seq<Sample>)
    requires DistanceFits(w, cfg) && cfg.minimumRotation <= 47 && NoHoming(w, cfg, samples)
    ensures DistanceFits(After(w, cfg, samples), cfg)
    ensures After(w, cfg, samples).distance == Left(w.distance, IncrementCount(w, cfg, samples))
    ensures After(w, cfg, samples).setpoint == w.setpoint
  {
    hide PositionUpdate, EncoderIncrement, Homes, Increments, Left, Residue, Fits;
    if samples == [] {
      assert Left(w.distance, 0) == w.distance;
    } else {
      var n := |samples| - 1;
      var e := After(w, cfg, samples[..n]);
      PrefixesAgree(w, cfg, samples);
      DistanceCountsDown(w, cfg, samples[..n]);
      OneReading(e, cfg, samples[n]);
      LeftOneMore(w.distance, IncrementCount(w, cfg, samples[..n]));
    }
  }

  lemma OneReading(w: Wheel, cfg: Config, s: Sample)
    requires DistanceFits(w, cfg) && cfg.minimumRotation <= 47 && !Homes(w, s)
    ensures DistanceFits(PositionUpdate(w, cfg, s), cfg)
    ensures Increments(w, s) ==> PositionUpdate(w, cfg, s).distance == if w.distance > 0 then w.distance - 1 else 47
    ensures !Increments(w, s) ==> PositionUpdate(w, cfg, s).distance == w.distance
    ensures PositionUpdate(w, cfg, s).setpoint == w.setpoint
  {
    hide PositionUpdate, EncoderIncrement, Homes, Increments, FlapIndexWrap;
    StepIsIncrement(w, cfg, s);
    StaysSane(w, cfg, s);
    OneSlotNearer(w, cfg);
  }

  /**
    One command, to its end: the distance is zero for the first time exactly when the shaft has moved
    forward by the commanded distance, beyond where it had been; then the wheel shows the character, and
    the slots travelled are at least the minimum rotation and at most 94.
    */
  lemma CommandArrives(w0: Wheel, cfg: Config, character: nat, samples: seq<Sample>)
    requires Sane(w0, cfg) && character < 256 && cfg.minimumRotation <= 47 && w0.backspin <= 0
    requires var w := CharacterSet(w0, cfg, character);
      NoHoming(w, cfg, samples) && Fits(w.backspin, w.oldPattern, samples)
    ensures var w := CharacterSet(w0, cfg, character);
      var forward := Farthest(w.backspin, w.oldPattern, samples);
      && cfg.minimumRotation <= w.distance <= 94
      && (forward <= w.distance ==> After(w, cfg, samples).distance == w.distance - forward)
      && (After(w, cfg, samples).distance == 0 ==> After(w, cfg, samples).position == character % 48)
      && (After(w, cfg, samples).distance == 0 ==> forward >= w.distance)
  {
    hide PositionUpdate, Homes, Increments, After, NetMovement, Farthest, IncrementCount, Fits, NoHoming;
    CommandSetsLeastDistance(w0, cfg, character);
    var w := CharacterSet(w0, cfg, character);
    CommandKeepsDecoder(w0, cfg, character);
    CountsRunningMaximum(w, cfg, samples);
    DistanceCountsDown(w, cfg, samples);
    if After(w, cfg, samples).distance == 0 {
      AtZeroIsThere(After(w, cfg, samples), cfg);
    }
  }

  lemma AtZeroIsThere(w: Wheel, cfg: Config)
    requires DistanceFits(w, cfg) && w.distance == 0
    ensures w.position == w.setpoint % 48
  {
    ResidueReaches(w.position, w.setpoint);
  }

  lemma CommandKeepsDecoder(w: Wheel, cfg: Config, character: nat)
    ensures var w' := CharacterSet(w, cfg, character);
      && w'.backspin == w.backspin && w'.oldPattern == w.oldPattern && w'.zeroLockout == w.zeroLockout
      && w'.zeroPrev == w.zeroPrev && w'.position == w.position && w'.setpoint == character
  {
  }

  // ---------------------------------------------------------------- when it does not arrive

  /** A minimum rotation of a whole turn extends every rotation again before it ends, also across homing. */
  lemma {:induction false} FullTurnNeverEnds(w: Wheel, cfg: Config, samples: seq<Sample>)
    requires DistanceFits(w, cfg) && cfg.minimumRotation == 48 && w.extendRevolution
    ensures DistanceFits(After(w, cfg, samples), cfg)
    ensures After(w, cfg, samples).extendRevolution && After(w, cfg, samples).distance >= 48
  {
    hide PositionUpdate, Residue;
    if samples != [] {
      var n := |samples| - 1;
      FullTurnNeverEnds(w, cfg, samples[..n]);
      StaysExtended(After(w, cfg, samples[..n]), cfg, samples[n]);
    }
  }

  lemma StaysExtended(w: Wheel, cfg: Config, s: Sample)
    requires DistanceFits(w, cfg) && cfg.minimumRotation == 48 && w.extendRevolution
    ensures DistanceFits(PositionUpdate(w, cfg, s), cfg) && PositionUpdate(w, cfg, s).extendRevolution
  {
    hide Qem, Pattern, FlapIndexWrap, Signed;
    StaysSane(w, cfg, s);
    WrapIsResidue(w.position + 1);
    WrapIsResidue(w.setpoint - (w.position + 1) % 48);
    WrapIsResidue(w.setpoint - cfg.encoderOffset);
  }

  /** The pattern that follows when the shaft moves one step, forward or back. */
  function NextPattern(p: nat, forward: bool): nat
    requires p < 4
  {
    if forward then [2, 0, 3, 1][p] else [1, 3, 0, 2][p]
  }

  function Reading(p: nat, z: bool): Sample {
    Sample(p % 2 == 1, p / 2 == 1, z)
  }

  /** The readings while the shaft turns steadily in one direction. */
  function Turning(p: nat, forward: bool, steps: nat, z: bool): seq<Sample>
    requires p < 4
    decreases steps
  {
    if steps == 0 then []
    else
      var before := Turning(p, forward, steps - 1, z);
      before + [Reading(NextPattern(LastPattern(p, before), forward), z)]
  }

  lemma TurningStep(p: nat, forward: bool, z: bool)
    requires p < 4
    ensures NextPattern(p, forward) < 4 && Pattern(Reading(NextPattern(p, forward), z)) == NextPattern(p, forward)
    ensures Move(p, Reading(NextPattern(p, forward), z)) == if forward then 1 else -1
  {
    if p == 0 {
    } else if p == 1 {
    } else if p == 2 {
    } else {
    }
  }

  lemma OneMoreReading(b0: int, p: nat, before: seq<Sample>, s: Sample)
    requires p < 4
    ensures NetMovement(p, before + [s]) == NetMovement(p, before) + Move(LastPattern(p, before), s)
    ensures Behind(b0, p, before + [s]) >= -128 && Fits(b0, p, before) ==> Fits(b0, p, before + [s])
    ensures var here := b0 + NetMovement(p, before + [s]);
      Farthest(b0, p, before + [s]) == if here > Farthest(b0, p, before) then here else Farthest(b0, p, before)
    ensures LastPattern(p, before + [s]) == Pattern(s)
  {
    hide Move, Pattern, Behind;
    var samples := before + [s];
    var n := |before|;
    assert samples[..n] == before;
    assert samples[..n + 1] == samples;
    assert forall k :: 0 <= k <= n ==> samples[..k] == before[..k];
  }

  lemma NoMovement(b0: int, p: nat)
    requires p < 4 && -128 <= b0 <= 0
    ensures NetMovement(p, []) == 0 && Farthest(b0, p, []) == 0 && Fits(b0, p, [])
  {
  }

  lemma {:induction false} ForwardMoves(b0: int, p: nat, steps: nat, z: bool)
    requires p < 4 && -128 <= b0 <= 0
    ensures NetMovement(p, Turning(p, true, steps, z)) == steps
    ensures Farthest(b0, p, Turning(p, true, steps, z)) == if b0 + steps > 0 then b0 + steps else 0
    ensures Fits(b0, p, Turning(p, true, steps, z))
  {
    hide Move, Pattern, Reading, NextPattern, Fits, LastPattern, NetMovement, Farthest;
    if steps == 0 {
      NoMovement(b0, p);
    } else {
      ForwardMoves(b0, p, steps - 1, z);
      var before := Turning(p, true, steps - 1, z);
      var last := LastPattern(p, before);
      TurningStep(last, true, z);
      OneMoreReading(b0, p, before, Reading(NextPattern(last, true), z));
    }
  }

  lemma {:induction false} BackwardMoves(b0: int, p: nat, steps: nat, z: bool)
    requires p < 4 && -128 <= b0 <= 0
    ensures NetMovement(p, Turning(p, false, steps, z)) + steps == 0
    ensures Farthest(b0, p, Turning(p, false, steps, z)) == 0
    ensures b0 - steps >= -128 ==> Fits(b0, p, Turning(p, false, steps, z))
  {
    hide Move, Pattern, Reading, NextPattern, Fits, LastPattern, NetMovement, Farthest;
    if steps == 0 {
      NoMovement(b0, p);
    } else {
      BackwardMoves(b0, p, steps - 1, z);
      var before := Turning(p, false, steps - 1, z);
      var last := LastPattern(p, before);
      TurningStep(last, false, z);
      OneMoreReading(b0, p, before, Reading(NextPattern(last, false), z));
    }
  }

  lemma OneMoreDoesNotHome(w: Wheel, cfg: Config, before: seq<Sample>, s: Sample)
    requires w.oldPattern < 4 && NoHoming(w, cfg, before) && !Homes(After(w, cfg, before), s)
    ensures NoHoming(w, cfg, before + [s])
    ensures After(w, cfg, before + [s]) == PositionUpdate(After(w, cfg, before), cfg, s)
  {
    hide PositionUpdate, Homes;
    var samples := before + [s];
    var n := |before|;
    assert samples[..n] == before;
    assert forall k :: 0 <= k <= n ==> samples[..k] == before[..k];
  }

  lemma NoReadings(w: Wheel, cfg: Config)
    requires w.oldPattern < 4
    ensures After(w, cfg, []) == w && NoHoming(w, cfg, [])
  {
  }

  lemma ReadingsZ(p: nat, z: bool)
    ensures Reading(p, z).z == z
  {
  }

  lemma {:induction false} TurningDoesNotHome(w: Wheel, cfg: Config, forward: bool, steps: nat)
    requires w.oldPattern < 4
    ensures NoHoming(w, cfg, Turning(w.oldPattern, forward, steps, w.zeroPrev))
    ensures After(w, cfg, Turning(w.oldPattern, forward, steps, w.zeroPrev)).zeroPrev == w.zeroPrev
  {
    hide PositionUpdate, Homes, LastPattern, NextPattern, After, NoHoming, Reading;
    if steps == 0 {
      NoReadings(w, cfg);
    } else {
      TurningDoesNotHome(w, cfg, forward, steps - 1);
      var before := Turning(w.oldPattern, forward, steps - 1, w.zeroPrev);
      var s := Reading(NextPattern(LastPattern(w.oldPattern, before), forward), w.zeroPrev);
      ReadingsZ(NextPattern(LastPattern(w.oldPattern, before), forward), w.zeroPrev);
      TurningKeepsZ(After(w, cfg, before), cfg, s);
      OneMoreDoesNotHome(w, cfg, before, s);
    }
  }

  /**
    Turned back until it is 129 steps behind, from whatever counter, a wheel counts the very next step
    forward as a new slot.
    */
  lemma TurnedBackTooFar(w: Wheel, cfg: Config)
    requires Sane(w, cfg) && w.backspin <= 0
    ensures var back := Turning(w.oldPattern, false, 129 + w.backspin, w.zeroPrev);
      var e := After(w, cfg, back);
      && NoHoming(w, cfg, back) && !Fits(w.backspin, w.oldPattern, back)
      && e.backspin == 127
      && Increments(e, Reading(NextPattern(e.oldPattern, true), w.zeroPrev))
  {
    hide NetMovement, Farthest, PositionUpdate, Pattern, Move, Homes, NextPattern, Reading, NoHoming, After;
    var steps := 129 + w.backspin;
    var back := Turning(w.oldPattern, false, steps, w.zeroPrev);
    BackwardMoves(w.backspin, w.oldPattern, steps, w.zeroPrev);
    BackwardMoves(w.backspin, w.oldPattern, steps - 1, w.zeroPrev);
    TurningDoesNotHome(w, cfg, false, steps);
    assert back[..|back| - 1] == Turning(w.oldPattern, false, steps - 1, w.zeroPrev);
    assert back[..|back|] == back;
    WrapsWhenTooFarBack(w, cfg, back);
    CountsAtOnce(After(w, cfg, back), w.zeroPrev);
  }

  lemma CountsAtOnce(w: Wheel, z: bool)
    requires w.oldPattern < 4 && w.backspin >= 0 && z == w.zeroPrev
    ensures Increments(w, Reading(NextPattern(w.oldPattern, true), z))
  {
    TurningStep(w.oldPattern, true, z);
  }

  lemma TurningKeepsZ(w: Wheel, cfg: Config, s: Sample)
    requires w.oldPattern < 4 && s.z == w.zeroPrev
    ensures !Homes(w, s) && PositionUpdate(w, cfg, s).zeroPrev == w.zeroPrev
  {
    hide Qem, Pattern, FlapIndexWrap, Signed;
  }

  /** A counter that is not below zero lets every step forward count. */
  lemma {:induction false} ForwardCounts(w: Wheel, cfg: Config, steps: nat)
    requires Sane(w, cfg) && w.backspin >= 0
    ensures var e := After(w, cfg, Turning(w.oldPattern, true, steps, w.zeroPrev));
      && IncrementCount(w, cfg, Turning(w.oldPattern, true, steps, w.zeroPrev)) == steps
      && Sane(e, cfg) && e.backspin == w.backspin && e.zeroPrev == w.zeroPrev
      && e.oldPattern == LastPattern(w.oldPattern, Turning(w.oldPattern, true, steps, w.zeroPrev))
  {
    hide PositionUpdate, Increments, LastPattern, NextPattern;
    if steps == 0 {
      assert LastPattern(w.oldPattern, []) == w.oldPattern by { LastOfNone(w.oldPattern); }
    } else {
      ForwardCounts(w, cfg, steps - 1);
      var before := Turning(w.oldPattern, true, steps - 1, w.zeroPrev);
      var samples := Turning(w.oldPattern, true, steps, w.zeroPrev);
      var e := After(w, cfg, before);
      assert samples[..|samples| - 1] == before;
      RunStaysSane(w, cfg, samples);
      CountsAtOnce(e, w.zeroPrev);
      CountingKeepsCounter(e, cfg, samples[|samples| - 1]);
    }
  }

  lemma LastOfNone(p: nat)
    requires p < 4
    ensures LastPattern(p, []) == p
  {
  }

  lemma CountingKeepsCounter(w: Wheel, cfg: Config, s: Sample)
    requires w.oldPattern < 4 && Increments(w, s)
    ensures PositionUpdate(w, cfg, s).backspin == w.backspin && PositionUpdate(w, cfg, s).zeroPrev == s.z
  {
    hide Qem, Pattern, FlapIndexWrap, Signed;
  }

  /** A distance can be travelled to its end, whatever the counter. */
  lemma CanArrive(w: Wheel, cfg: Config) returns (samples: seq<Sample>)
    requires DistanceFits(w, cfg) && cfg.minimumRotation <= 47
    ensures After(w, cfg, samples).distance == 0
  {
    hide PositionUpdate, Increments, After, NetMovement, Farthest, IncrementCount, Fits, NoHoming, Turning;
    var steps := if w.backspin >= 0 then w.distance else w.distance - w.backspin;
    samples := Turning(w.oldPattern, true, steps, w.zeroPrev);
    TurningDoesNotHome(w, cfg, true, steps);
    DistanceCountsDown(w, cfg, samples);
    if w.backspin >= 0 {
      ForwardCounts(w, cfg, steps);
    } else {
      ForwardMoves(w.backspin, w.oldPattern, steps, w.zeroPrev);
      CountsRunningMaximum(w, cfg, samples);
    }
  }

  /** After a command the wheel can come to rest at all exactly when the minimum rotation is below a full turn. */
  lemma ArrivesIff(w0: Wheel, cfg: Config, character: nat)
    requires Sane(w0, cfg) && character < 256
    ensures var w := CharacterSet(w0, cfg, character);
      (exists samples :: After(w, cfg, samples).distance == 0) <==> cfg.minimumRotation <= 47
  {
    hide After, Residue;
    var w := CharacterSet(w0, cfg, character);
    CommandSetsLeastDistance(w0, cfg, character);
    if cfg.minimumRotation <= 47 {
      var samples := CanArrive(w, cfg);
    } else {
      forall samples ensures After(w, cfg, samples).distance != 0 {
        FullTurnNeverEnds(w, cfg, samples);
      }
    }
  }

  // ---------------------------------------------------------------- homing

  /** Once homed, the wheel does not home again before a counted slot has brought it past the fifth. */
  lemma {:induction false} NoSecondHoming(w: Wheel, cfg: Config, samples: seq<Sample>)
    requires Sane(w, cfg) && w.zeroLockout
    requires forall n :: 0 <= n < |samples| && Increments(After(w, cfg, samples[..n]), samples[n]) ==>
      After(w, cfg, samples[..n + 1]).position <= 5
    ensures NoHoming(w, cfg, samples) && After(w, cfg, samples).zeroLockout
  {
    hide PositionUpdate, Increments, Qem, Fits, FlapIndexWrap;
    if samples != [] {
      var n := |samples| - 1;
      var before := samples[..n];
      assert samples[..n + 1] == samples;
      assert forall k :: 0 <= k <= n ==> before[..k] == samples[..k];
      NoSecondHoming(w, cfg, before);
      LockoutHolds(After(w, cfg, before), cfg, samples[n]);
    }
  }

  /**
    Homing is locked out until a counted slot has landed past the fifth, and no longer: then the next zero
    mark homes the wheel again.
    */
  lemma {:induction false} LockedOutIff(w: Wheel, cfg: Config, samples: seq<Sample>)
    requires Sane(w, cfg) && w.zeroLockout && NoHoming(w, cfg, samples)
    ensures After(w, cfg, samples).zeroLockout <==>
      forall n :: 0 <= n < |samples| && Increments(After(w, cfg, samples[..n]), samples[n]) ==>
        After(w, cfg, samples[..n + 1]).position <= 5
    ensures forall s: Sample :: Homes(After(w, cfg, samples), s) <==>
      !After(w, cfg, samples).zeroLockout && !s.z && After(w, cfg, samples).zeroPrev
      && Qem(After(w, cfg, samples).oldPattern, s) != 2
  {
    hide PositionUpdate, Increments, Qem, Fits, FlapIndexWrap;
    if samples != [] {
      var n := |samples| - 1;
      var before := samples[..n];
      assert samples[..n + 1] == samples;
      assert forall k :: 0 <= k <= n ==> before[..k] == samples[..k];
      PrefixesAgree(w, cfg, samples);
      LockedOutIff(w, cfg, before);
      LockoutAfter(After(w, cfg, before), cfg, samples[n]);
    }
  }

  lemma LockoutAfter(w: Wheel, cfg: Config, s: Sample)
    requires w.oldPattern < 4 && !Homes(w, s)
    ensures PositionUpdate(w, cfg, s).zeroLockout <==>
      w.zeroLockout && (Increments(w, s) ==> PositionUpdate(w, cfg, s).position <= 5)
  {
    hide Qem, Pattern, FlapIndexWrap, Signed;
  }

  lemma LockoutHolds(w: Wheel, cfg: Config, s: Sample)
    requires w.oldPattern < 4 && w.zeroLockout
    requires Increments(w, s) ==> PositionUpdate(w, cfg, s).position <= 5
    ensures !Homes(w, s) && PositionUpdate(w, cfg, s).zeroLockout
  {
    hide Qem, Pattern, FlapIndexWrap, Signed;
  }

  /**
    Homing forgets every earlier error: whatever the position was, afterwards it is the offset of the zero
    mark plus the farthest the shaft has moved since.
    */
  lemma PositionSinceHoming(w0: Wheel, cfg: Config, mark: Sample, samples: seq<Sample>)
    requires Sane(w0, cfg) && Homes(w0, mark)
    requires NoHoming(PositionUpdate(w0, cfg, mark), cfg, samples) && Fits(0, Pattern(mark), samples)
    ensures After(PositionUpdate(w0, cfg, mark), cfg, samples).position
      == (cfg.encoderOffset + Farthest(0, Pattern(mark), samples)) % 48
    ensures DistanceFits(PositionUpdate(w0, cfg, mark), cfg)
    ensures PositionUpdate(w0, cfg, mark).zeroLockout && PositionUpdate(w0, cfg, mark).backspin == 0
  {
    hide Qem, Pattern, FlapIndexWrap, Signed, After, NetMovement, Farthest, IncrementCount, NoHoming, Fits;
    WrapIsResidue(w0.setpoint - cfg.encoderOffset);
    StaysSane(w0, cfg, mark);
    var w := PositionUpdate(w0, cfg, mark);
    CountsRunningMaximum(w, cfg, samples);
    PositionAdvances(w, cfg, samples);
  }

  // ---------------------------------------------------------------- the module

  lemma SeenIsSane(w: Wheel, cfg: Config, s: Sample)
    requires Sane(w, cfg)
    ensures w.oldPattern < 4 && Sane(w.(oldPattern := Pattern(s)), cfg)
  {
    hide Pattern;
  }

  /** The part of the module's context, and of the decoder's static variables, that motion rests on. */
  class FlapModule {
    var digitalA: bool
    var digitalB: bool
    var digitalZ: bool
    var backspinPrevention: int
    var zeroLockout: bool
    var zeroPrev: bool
    var oldPattern: nat
    var flapSetpoint: nat
    var flapPosition: nat
    var flapPositionPrev: nat
    var flapDistance: nat
    var extendRevolution: bool
    var encoderOffset: nat
    var minimumRotation: nat

    function View(): Wheel reads this {
      Wheel(backspinPrevention, zeroLockout, zeroPrev, oldPattern,
            flapPosition, flapPositionPrev, flapSetpoint, flapDistance, extendRevolution)
    }

    function Settings(): Config reads this { Config(encoderOffset, minimumRotation) }

    function Encoder(): Sample reads this { Sample(digitalA, digitalB, digitalZ) }

    ghost predicate Valid() reads this { Sane(View(), Settings()) }

    /** At power-up the position is unknown, so the distance is set to a whole turn. */
    constructor (storedOffset: nat, storedMinimumRotation: nat)
      requires storedOffset < 48 && storedMinimumRotation <= 48
      ensures Valid() && Settings() == Config(storedOffset, storedMinimumRotation)
      ensures View() == Wheel(-48, false, false, 0, 0, 0, 0, 48, false) && Encoder() == Sample(false, false, false)
    {
      digitalA, digitalB, digitalZ := false, false, false;
      backspinPrevention, zeroLockout, zeroPrev, oldPattern := -48, false, false, 0;
      flapSetpoint, flapPosition, flapPositionPrev, flapDistance, extendRevolution := 0, 0, 0, 48, false;
      encoderOffset, minimumRotation := storedOffset, storedMinimumRotation;
    }

    method DistanceUpdate()
      requires Valid()
      modifies this`flapDistance, this`extendRevolution
      ensures Valid() && View() == FlapWheel.DistanceUpdate(old(View()), Settings())
    {
      WrapIsResidue(flapSetpoint - flapPosition);
      var distance := FlapIndexWrap(flapSetpoint - flapPosition);
      if extendRevolution {
        if distance < minimumRotation {
          distance := distance + 48;
        } else {
          extendRevolution := false;
        }
      }
      flapDistance := distance;
    }

    method EncoderIncrement()
      requires Valid()
      modifies this`flapPosition, this`flapPositionPrev, this`flapDistance, this`extendRevolution
      ensures Valid() && View() == FlapWheel.EncoderIncrement(old(View()), Settings())
    {
      WrapIsResidue(flapPosition + 1);
      flapPositionPrev := flapPosition;
      flapPosition := FlapIndexWrap(flapPosition + 1);
      DistanceUpdate();
    }

    method EncoderZero()
      requires Valid()
      modifies this`flapPosition, this`flapPositionPrev, this`flapDistance, this`extendRevolution
      ensures Valid() && View() == FlapWheel.EncoderZero(old(View()), Settings())
    {
      flapPositionPrev := flapPosition;
      flapPosition := encoderOffset;
      DistanceUpdate();
    }

    method EncoderPositionUpdate()
      requires Valid()
      modifies this`backspinPrevention, this`zeroLockout, this`zeroPrev, this`oldPattern,
        this`flapPosition, this`flapPositionPrev, this`flapDistance, this`extendRevolution
      ensures Valid() && View() == PositionUpdate(old(View()), Settings(), Encoder())
    {
      hide Pattern, Qem, Counted, Sane;
      SeenIsSane(View(), Settings(), Encoder());
      StaysSane(View(), Settings(), Encoder());
      ghost var after := PositionUpdate(View(), Settings(), Encoder());
      var qem := Qem(oldPattern, Encoder());
      oldPattern := Pattern(Encoder());
      if qem != 2 {
        Count(qem);
        zeroPrev := digitalZ;
      }
      assert View() == after;
    }

    /** The branches of the position update: home, wind the counter, or advance. */
    method Count(qem: int)
      requires Valid()
      modifies this`backspinPrevention, this`zeroLockout,
        this`flapPosition, this`flapPositionPrev, this`flapDistance, this`extendRevolution
      ensures View() == Counted(old(View()), Settings(), Encoder(), qem)
    {
      hide Signed, FlapWheel.EncoderIncrement, FlapWheel.EncoderZero;
      if !digitalZ && zeroPrev && !zeroLockout {
        EncoderZero();
        backspinPrevention := 0;
        zeroLockout := true;
      } else if backspinPrevention < 0 || qem != 1 {
        backspinPrevention := Signed(backspinPrevention + qem, 128);
      } else {
        EncoderIncrement();
        if flapPosition > 5 {
          zeroLockout := false;
        }
      }
    }

    /** The character property's setter; it is given the first byte of the buffer. */
    method PropertyCharacterSet(first: nat)
      requires Valid() && first < 256
      modifies this`flapSetpoint, this`flapDistance, this`extendRevolution
      ensures Valid() && View() == CharacterSet(old(View()), Settings(), first)
      ensures DistanceFits(View(), Settings())
    {
      CommandSetsLeastDistance(View(), Settings(), first);
      flapSetpoint := first;
      DistanceUpdate();
      if flapDistance < minimumRotation {
        extendRevolution := true;
        flapDistance := flapDistance + 48;
      }
    }

    method PropertyMinimumRotationSet(first: nat)
      requires Valid() && first < 256
      modifies this`minimumRotation
      ensures Valid() && minimumRotation == if first < 48 then first else 48
    {
      if minimumRotation == first {
        return;
      }
      minimumRotation := if first < 48 then first else 48;
    }
  }
}
