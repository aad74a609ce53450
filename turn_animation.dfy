/**
 The face-turn animation state (`FaceRotation`) and the two things that
 change it: a key press that starts a quarter turn, and the display tick
 that eases the drawn angle towards its target and then snaps it.

 `targetAngle` only ever grows from 0 in steps of exactly 90 degrees, so it
 is an `int` of degrees here. The drawn `angle` is a `real`: the tick's
 arithmetic is exact in this model, not single-precision.
 */
module TurnAnimation {

  /** No face is turning yet. */
  const NoFace := -1

  /** Degrees added to `targetAngle` by each turn key. */
  const QuarterTurn := 90

  /** Below this gap (in degrees) the tick snaps the angle to its target. */
  const SnapGap: real := 0.1

  /** Fraction of the remaining gap the tick closes. */
  const Damping: real := 0.15

  /** Ticks after which a quarter turn started from idle has always finished. */
  const SettleTicks := 6001

  datatype Anim = Anim(face: int, angle: real, targetAngle: int, isRotating: bool)

  /** The state before any key is pressed. */
  function Initial(): (a: Anim)
    ensures Valid(a) && !a.isRotating && a.face == NoFace
  {
    Anim(NoFace, 0.0, 0, false)
  }

  function Abs(x: real): (y: real)
    ensures y >= 0.0 && (y == x || y == -x)
  {
    if x < 0.0 then -x else x
  }

  /** What is left of the current quarter turn to draw. */
  function Gap(a: Anim): real {
    a.targetAngle as real - a.angle
  }

  /**
   The state every reachable `FaceRotation` satisfies: the target is a whole
   number of quarter turns, a face is named exactly when a turn has been
   started, an idle animation shows its target, and a running one has at
   most one quarter turn left, never overshooting.
   */
  predicate Valid(a: Anim)
    ensures Valid(a) ==> a.targetAngle as real - QuarterTurn as real <= a.angle <= a.targetAngle as real
  {
    && (a.face == NoFace || 0 <= a.face < 6)
    && a.targetAngle >= 0 && a.targetAngle % QuarterTurn == 0
    && (a.face == NoFace <==> a.targetAngle == 0)
    && (!a.isRotating ==> a.angle == a.targetAngle as real)
    && (a.isRotating ==> 0.0 <= Gap(a) <= QuarterTurn as real)
  }

  /**
   One display tick. A running animation whose gap exceeds the snap
   threshold closes `Damping` of it; otherwise the angle snaps to the
   target and the animation stops. An idle one is left alone. The tick
   never changes the face or the target.
   */
  function TickStep(a: Anim): (r: Anim)
    ensures r.face == a.face && r.targetAngle == a.targetAngle
    ensures !a.isRotating ==> r == a
    ensures a.isRotating && Abs(Gap(a)) > SnapGap ==> r.isRotating && Gap(r) == (1.0 - Damping) * Gap(a)
    ensures a.isRotating && Abs(Gap(a)) <= SnapGap ==> !r.isRotating && r.angle == a.targetAngle as real
  {
    if !a.isRotating then a
    else
      var diff := a.targetAngle as real - a.angle;
      if Abs(diff) > SnapGap then a.(angle := a.angle + diff * Damping)
      else a.(angle := a.targetAngle as real, isRotating := false)
  }

  /**
   A turn key for face `face`: ignored while a turn is running; otherwise it
   names the face, adds a quarter turn to the target and starts the
   animation, leaving the drawn angle where it is.
   */
  function TriggerStep(a: Anim, face: int): (r: Anim)
    ensures a.isRotating ==> r == a
    ensures !a.isRotating ==> r.isRotating && r.face == face && r.angle == a.angle
    ensures !a.isRotating ==> r.targetAngle == a.targetAngle + QuarterTurn
  {
    if a.isRotating then a
    else a.(face := face, targetAngle := a.targetAngle + QuarterTurn, isRotating := true)
  }

  /** A tick keeps the animation state valid. */
  lemma TickKeepsValid(a: Anim)
    requires Valid(a)
    ensures Valid(TickStep(a))
  {
  }

  /** A turn key for a face keeps the animation state valid; from idle it leaves exactly a quarter turn to draw. */
  lemma TriggerKeepsValid(a: Anim, face: int)
    requires Valid(a) && 0 <= face < 6
    ensures Valid(TriggerStep(a, face))
    ensures !a.isRotating ==> Gap(TriggerStep(a, face)) == QuarterTurn as real
  {
  }

  /** `n` display ticks. */
  function Ticks(a: Anim, n: nat): (r: Anim)
    ensures r.face == a.face && r.targetAngle == a.targetAngle
    ensures !a.isRotating ==> r == a
    decreases n
  {
    if n == 0 then a else Ticks(TickStep(a), n - 1)
  }

  lemma {:induction false} TicksKeepValid(a: Anim, n: nat)
    requires Valid(a)
    ensures Valid(Ticks(a, n))
    decreases n
  {
    if n > 0 {
      TickKeepsValid(a);
      TicksKeepValid(TickStep(a), n - 1);
    }
  }

  /** A tick that does not snap closes at least `Damping * SnapGap` of the gap. */
  lemma TickShrinksGap(a: Anim)
    requires Valid(a) && a.isRotating && Gap(a) > SnapGap
    ensures TickStep(a).isRotating && Gap(TickStep(a)) <= Gap(a) - Damping * SnapGap
  {
  }

  /**
   A running animation whose gap is at most `SnapGap + n * Damping * SnapGap`
   has stopped, showing its target, after `n + 1` ticks.
   */
  lemma {:induction false} TicksSettle(a: Anim, n: nat)
    requires Valid(a) && a.isRotating && Gap(a) <= SnapGap + n as real * (Damping * SnapGap)
    ensures !Ticks(a, n + 1).isRotating
    ensures Ticks(a, n + 1).angle == a.targetAngle as real
    decreases n
  {
    if Gap(a) <= SnapGap {
      assert !TickStep(a).isRotating;
    } else {
      TickShrinksGap(a);
      assert n > 0;
      TicksSettle(TickStep(a), n - 1);
    }
  }

  /** A quarter turn started from idle is fully drawn after `SettleTicks` ticks. */
  lemma QuarterTurnSettles(a: Anim, face: int)
    requires Valid(a) && !a.isRotating && 0 <= face < 6
    ensures var r := Ticks(TriggerStep(a, face), SettleTicks);
      !r.isRotating && r.angle == r.targetAngle as real && r.targetAngle == a.targetAngle + QuarterTurn
  {
    TriggerKeepsValid(a, face);
    TicksSettle(TriggerStep(a, face), SettleTicks - 1);
  }

  /** The global `faceRotation` record, whose fields the key handler and the display tick update. */
  class FaceRotation {
    var face: int
    var angle: real
    var targetAngle: int
    var isRotating: bool

    function State(): Anim
      reads this
    {
      Anim(face, angle, targetAngle, isRotating)
    }

    constructor ()
      ensures State() == Initial()
    {
      face := NoFace;
      angle := 0.0;
      targetAngle := 0;
      isRotating := false;
    }

    /** The animation step of the display callback. */
    method Tick()
      modifies this
      ensures State() == TickStep(old(State()))
    {
      if isRotating {
        var diff := targetAngle as real - angle;
        if Abs(diff) > SnapGap {
          angle := angle + diff * Damping;
        } else {
          angle := targetAngle as real;
          isRotating := false;
        }
      }
    }
  }
}
