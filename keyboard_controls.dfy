/**
 The cube and turn keys of the keyboard callback: '1'..'6' start a quarter
 turn of Front, Back, Right, Left, Top or Bottom and update the grid at
 once, the space bar scrambles, 'r'/'R' resets. Every other key touches
 neither the grid nor the turn animation.
 */
module KeyboardControls {
  import opened CubeModel
  import opened TurnAnimation
  import opened CubeEngine

  /** What a key can change: the sticker grid and the turn animation. */
  datatype Ui = Ui(grid: seq<int>, anim: Anim)

  predicate IsTurnKey(key: char) {
    '1' <= key <= '6'
  }

  /** The face a turn key names: '1' is Front, ..., '6' is Bottom. */
  function KeyFace(key: char): (f: int)
    requires IsTurnKey(key)
    ensures IsFace(f)
  {
    key as int - '1' as int
  }

  /**
   The effect of one key press. A turn key pressed while a turn is drawn is
   ignored; otherwise it starts the animation and turns the grid. The
   `draws` stand for the `rand()` results the space bar consumes.
   */
  function KeyStep(u: Ui, key: char, draws: seq<Draw>): (r: Ui)
    requires IsGrid(u.grid)
    ensures IsGrid(r.grid)
    ensures IsTurnKey(key) && u.anim.isRotating ==> r == u
    ensures IsTurnKey(key) && !u.anim.isRotating ==>
      r.grid == Turn(u.grid, KeyFace(key)) && r.anim == TriggerStep(u.anim, KeyFace(key))
    ensures key == ' ' ==> r == Ui(Scrambled(u.grid, draws), u.anim)
    ensures key == 'r' || key == 'R' ==> r == Ui(Solved(), u.anim)
    ensures !IsTurnKey(key) && key != ' ' && key != 'r' && key != 'R' ==> r == u
  {
    if IsTurnKey(key) then
      if u.anim.isRotating then u
      else Ui(Turn(u.grid, KeyFace(key)), TriggerStep(u.anim, KeyFace(key)))
    else if key == ' ' then u.(grid := Scrambled(u.grid, draws))
    else if key == 'r' || key == 'R' then u.(grid := Solved())
    else u
  }

  /** The turn keys name the six faces in order, each exactly once. */
  lemma KeyFacesAreDistinct(k1: char, k2: char)
    requires IsTurnKey(k1) && IsTurnKey(k2)
    ensures (KeyFace(k1) == KeyFace(k2)) <==> k1 == k2
    ensures KeyFace('1') == Front && KeyFace('2') == Back && KeyFace('3') == Right
    ensures KeyFace('4') == Left && KeyFace('5') == Top && KeyFace('6') == Bottom
  {
  }

  /** A key press keeps a coloured grid coloured and a valid animation valid. */
  lemma KeyStepKeepsValid(u: Ui, key: char, draws: seq<Draw>)
    requires HasColors(u.grid) && Valid(u.anim)
    ensures HasColors(KeyStep(u, key, draws).grid) && Valid(KeyStep(u, key, draws).anim)
  {
    if IsTurnKey(key) {
      if !u.anim.isRotating {
        var f := KeyFace(key);
        TurnKeepsStickers(u.grid, f);
        SameStickersKeepColors(u.grid, Turn(u.grid, f));
        TriggerKeepsValid(u.anim, f);
      }
    } else if key == ' ' {
      ScrambledKeepsColors(u.grid, draws);
    }
  }

  /** Every key except reset keeps every colour's count. */
  lemma KeyStepKeepsStickers(u: Ui, key: char, draws: seq<Draw>)
    requires IsGrid(u.grid) && key != 'r' && key != 'R'
    ensures multiset(KeyStep(u, key, draws).grid) == multiset(u.grid)
  {
    if IsTurnKey(key) && !u.anim.isRotating {
      TurnKeepsStickers(u.grid, KeyFace(key));
    }
  }

  /** A turn key, then enough display ticks for the turn to finish drawing. */
  function PressAndSettle(u: Ui, key: char): (r: Ui)
    requires IsGrid(u.grid) && IsTurnKey(key)
    ensures IsGrid(r.grid)
  {
    var v := KeyStep(u, key, []);
    Ui(v.grid, Ticks(v.anim, SettleTicks))
  }

  /** From an idle animation, a turn key finishes drawing within `SettleTicks` ticks, one quarter turn further on. */
  lemma PressAndSettleTurns(u: Ui, key: char)
    requires IsGrid(u.grid) && Valid(u.anim) && !u.anim.isRotating && IsTurnKey(key)
    ensures var r := PressAndSettle(u, key);
      && r.grid == Turn(u.grid, KeyFace(key))
      && Valid(r.anim) && !r.anim.isRotating && r.anim.face == KeyFace(key)
      && r.anim.targetAngle == u.anim.targetAngle + QuarterTurn
  {
    var f := KeyFace(key);
    QuarterTurnSettles(u.anim, f);
    TriggerKeepsValid(u.anim, f);
    TicksKeepValid(TriggerStep(u.anim, f), SettleTicks);
  }

  /**
   Pressing the same turn key four times, each time letting the animation
   finish, shows the grid it started from, turned a full 360 degrees.
   */
  lemma FourPressesRestore(u: Ui, key: char)
    requires IsGrid(u.grid) && Valid(u.anim) && !u.anim.isRotating && IsTurnKey(key)
    ensures var r := PressAndSettle(PressAndSettle(PressAndSettle(PressAndSettle(u, key), key), key), key);
      && r.grid == u.grid && !r.anim.isRotating
      && r.anim.targetAngle == u.anim.targetAngle + 4 * QuarterTurn
  {
    var u1 := PressAndSettle(u, key);
    PressAndSettleTurns(u, key);
    var u2 := PressAndSettle(u1, key);
    PressAndSettleTurns(u1, key);
    var u3 := PressAndSettle(u2, key);
    PressAndSettleTurns(u2, key);
    PressAndSettleTurns(u3, key);
    TurnOrderFour(u.grid, KeyFace(key));
  }

  /** Pressing reset twice is the same as pressing it once. */
  lemma ResetIsIdempotent(u: Ui, key: char, draws: seq<Draw>)
    requires IsGrid(u.grid) && (key == 'r' || key == 'R')
    ensures KeyStep(KeyStep(u, key, draws), key, draws) == KeyStep(u, key, draws)
    ensures KeyStep(u, key, draws).grid == Solved() && KeyStep(u, key, draws).anim == u.anim
  {
  }

  /** The cube and turn cases of the keyboard callback. */
  method HandleKey(cube: Cube, rotation: FaceRotation, key: char, draws: seq<Draw>)
    requires cube.Valid()
    requires key == ' ' ==> |draws| == ScrambleSwaps
    modifies cube.cells, rotation
    ensures cube.Valid()
    ensures Ui(cube.cells[..], rotation.State()) == KeyStep(Ui(old(cube.cells[..]), old(rotation.State())), key, draws)
  {
    ghost var u := Ui(cube.cells[..], rotation.State());
    if IsTurnKey(key) {
      if !rotation.isRotating {
        var face := key as int - '1' as int;
        rotation.face := face;
        rotation.targetAngle := rotation.targetAngle + QuarterTurn;
        rotation.isRotating := true;
        ghost var a := rotation.State();
        assert a == TriggerStep(u.anim, KeyFace(key));
        cube.PerformFaceRotation(face);
        assert rotation.State() == a;
        assert KeyStep(u, key, draws) == Ui(Turn(u.grid, KeyFace(key)), a);
      } else {
        assert KeyStep(u, key, draws) == u;
      }
    } else if key == ' ' {
      cube.Scramble(draws);
      assert rotation.State() == u.anim;
      assert KeyStep(u, key, draws) == Ui(Scrambled(u.grid, draws), u.anim);
    } else if key == 'r' || key == 'R' {
      cube.Reset();
      assert rotation.State() == u.anim;
      assert KeyStep(u, key, draws) == Ui(Solved(), u.anim);
    } else {
      assert KeyStep(u, key, draws) == u;
    }
  }
}
