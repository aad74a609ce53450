# Rubik's cube engine of `sine_wave.cpp`

`sine_wave.cpp` is an OpenGL/GLUT program that draws an animated 3x3
Rubik's cube. This project models the logical part that the drawing sits on
top of:

- the sticker grid `cubeState[6][9]`, where face `f` sticker `p` holds a
  colour index 0..5. The faces are Front=0, Back=1, Right=2, Left=3,
  Top=4 and Bottom=5;
- the clockwise quarter turn of a face, `performFaceRotation`. It is the
  face-local permutation `rotateFaceClockwise` followed by the edge
  propagation `rotateAdjacentEdges`, which has one case per face;
- the scramble loop, which does fifty swaps of two random stickers, and
  `resetCube`;
- the `faceRotation` animation record: the turn keys '1'..'6' start a
  quarter turn, and the display callback's tick eases the drawn angle
  towards its target;
- the keyboard handler's turn, scramble and reset cases.

The model has five modules:

- `CubeModel` gives every operation as a pure function on a 54-cell
  `seq<int>`. Cell `9 * f + p` is `cubeState[f][p]`, the C row-major
  layout. Every turn step is described pointwise by a "source cell": the
  new value of cell `i` is the old value of cell `Source(i)`. A scramble
  swaps cells, and a reset writes the solved grid. The lemmas prove the
  following:
  - every turn step permutes the cells, and so does every scramble swap,
    so both conserve each colour's count;
  - a turn never moves a centre sticker;
  - the edge step writes only twelve cells, none on the turning face or
    on the opposite face;
  - the program's in-place copies read every cell before overwriting it;
  - four quarter turns of one face give back the grid.
- `CubeEngine` has a class `Cube` holding the grid as an `array<int>`. Its
  methods perform the program's writes cell by cell, through the same
  `temp` buffers, with the Front case's Left row corrected (see
  Findings). Each method is proved to leave the array equal to the
  matching `CubeModel` function of the old contents.
- `TurnAnimation` holds the `faceRotation` record, both as a value and as
  a class. It gives the tick and the turn trigger, the state invariant
  they keep, and a bound on the ticks a quarter turn needs to finish.
- `KeyboardControls` holds the cube cases of the keyboard callback, as a
  pure step function and as a method on a `Cube` and a `FaceRotation`.
- `FrontTurnAsWritten` models the Front case of the edge propagation
  exactly as written. It proves that this case does not have order four
  (see Findings).

The scramble body in the source (lines 365-377) has lost its
`void scrambleCube() {` header, but the space-bar case calls
`scrambleCube()`. It is modelled as that function. Its `rand()` results
are an input: one `Draw` for each of the fifty iterations, holding the
four draws in call order.

Although it is called a scramble, the code only swaps cells, so every
colour keeps its count (`CubeModel.Scrambled`). A scramble can,
however, move a centre sticker (`CubeModel.ScrambleCanMoveCenters`).

## Model

| member | source | states |
|---|---|---|
| CubeModel.Solved | sine_wave.cpp:28-35 | The initial grid: every sticker of face `f` has colour `f`, so every cell holds a colour. |
| CubeModel.SolvedIsUnique | sine_wave.cpp:28-35 | A grid in which every face shows only its own colour is the solved grid. |
| CubeModel.SolvedColorCounts | sine_wave.cpp:28-35 | The solved grid holds each colour exactly nine times and nothing else. |
| CubeModel.ClockwiseSource | sine_wave.cpp:261-272 | The position whose sticker a clockwise quarter turn moves into position `p`, by the table `[6,3,0,7,4,1,8,5,2]`. It is always a position, and it equals `p` exactly when `p` is the centre. |
| CubeModel.Swap | sine_wave.cpp:373-375 | Exchanging cells `i` and `j` puts each one's sticker in the other and leaves every other cell alone. It is the identity when `i == j` and keeps the multiset of stickers. |
| CubeModel.FaceStep | sine_wave.cpp:253-273 | The face-local quarter turn leaves every cell off the turning face unchanged and keeps the face's centre. |
| CubeModel.FaceStepAt | sine_wave.cpp:264-272 | Position `p` of the turning face receives the sticker at position `[6,3,0,7,4,1,8,5,2][p]`. |
| CubeModel.FaceWrites | sine_wave.cpp:264-272 | The nine writes of the face, in program order, each reading the saved copy. The contract gives only the length; `FaceWritesAreFaceStep` proves the result equals `FaceStep`. |
| CubeModel.FaceWritesAreFaceStep | sine_wave.cpp:264-272 | The program's nine writes, in its order and reading the saved copy, compute exactly the face-local quarter turn. |
| CubeModel.ClockwiseSourceOrderFour | sine_wave.cpp:261-272 | The position permutation has order four, and its only fixed point is the centre. |
| CubeModel.FaceStepOrderFour | sine_wave.cpp:253-273 | Four face-local quarter turns of the same face give back the grid. |
| CubeModel.FaceSourceIsTwoCycles | sine_wave.cpp:264-272 | The face permutation is two 4-cycles, one of corners (0 2 8 6) and one of edges (1 5 7 3). |
| CubeModel.FaceStepKeepsStickers | sine_wave.cpp:253-273 | The face-local quarter turn keeps the multiset of stickers. |
| CubeModel.FaceStepKeepsColors | sine_wave.cpp:253-273 | The face-local quarter turn keeps every cell a colour. |
| CubeModel.Ring | sine_wave.cpp:282-355 | The edge table of each of the six cases: twelve cells, as four triplets in turning order, where cell `r[k]` receives the sticker of `r[(k + 9) % 12]`. The Front table has the corrected Left row (see Findings). The contract states only the length; `RingShape` proves the shape. |
| CubeModel.RingShape | sine_wave.cpp:279-357 | Each face's edge table names twelve distinct cells. None is on the face, none is on its opposite face, and none is a centre. |
| CubeModel.RingMissesCenters | sine_wave.cpp:279-357 | No edge table contains a centre cell. |
| CubeModel.RingSourceAt | sine_wave.cpp:282-290 | Ring cell `r[k]` receives the sticker of `r[k - 3]`, the same place one triplet back around the face. |
| CubeModel.RingSourceOrderFour | sine_wave.cpp:279-357 | Four ring shifts bring every cell back to itself. |
| CubeModel.RingStep | sine_wave.cpp:279-357 | The ring shift leaves every cell off the ring unchanged. |
| CubeModel.ShiftTriplet | sine_wave.cpp:282-355 | One copy line of a case: a triplet of the ring copied into another, cell by cell, first to last or last to first. The contract gives only the length; `SequentialShiftIsRingStep` uses it. |
| CubeModel.RestoreTriplet | sine_wave.cpp:282-355 | The last copy line of a case: the saved first triplet written into the second, in either order. The contract gives only the length; `SequentialShiftIsRingStep` uses it. |
| CubeModel.SequentialShift | sine_wave.cpp:282-355 | The order every case uses: save the first triplet, three copies, then restore the saved triplet. The contract gives only the length; `SequentialShiftIsRingStep` proves the result equals `RingStep`. |
| CubeModel.SequentialShiftIsRingStep | sine_wave.cpp:282-355 | The program's copy sequence reads each cell before overwriting it: save the first triplet, copy fourth to first, third to fourth, second to third, then the saved copy to second. In whichever order each triplet is walked, this equals the simultaneous ring shift. |
| CubeModel.RingSourceIsThreeCycles | sine_wave.cpp:282-355 | Each ring shift is three disjoint 4-cycles, through the first, second and third cells of the triplets. |
| CubeModel.RingStepIsThreeCycles | sine_wave.cpp:282-355 | The ring shift of a grid equals applying those three 4-cycles. |
| CubeModel.RingStepKeepsStickers | sine_wave.cpp:279-357 | The ring shift keeps the multiset of stickers. |
| CubeModel.EdgeStep | sine_wave.cpp:276-358 | The edge step never changes the turning face, the opposite face or any centre. |
| CubeModel.EdgeStepKeepsStickers | sine_wave.cpp:276-358 | The edge step keeps the multiset of stickers. |
| CubeModel.EdgeStepKeepsColors | sine_wave.cpp:276-358 | The edge step keeps every cell a colour. |
| CubeModel.EdgeStepOrderFour | sine_wave.cpp:276-358 | Four edge steps of the same face give back the grid. |
| CubeModel.StepSourcesCommute | sine_wave.cpp:361-364 | The face step and the edge step of a face act on disjoint cells, so their source maps commute. |
| CubeModel.TurnSourcePower | sine_wave.cpp:361-364 | Four turn sources equal four edge sources followed by four face sources. |
| CubeModel.TurnSourceOrderFour | sine_wave.cpp:361-364 | Following the turn's source map four times from any cell returns to that cell. |
| CubeModel.TurnAt | sine_wave.cpp:361-364 | After a turn, each cell holds the old sticker of its turn source. |
| CubeModel.Turn | sine_wave.cpp:361-364 | The face step followed by the edge step of the same face. The opposite face is never changed, and every face's centre keeps its sticker. |
| CubeModel.TurnOrderFour | sine_wave.cpp:361-364 | Four clockwise quarter turns of the same face give back the exact grid. |
| CubeModel.TurnKeepsStickers | sine_wave.cpp:361-364 | A turn keeps the multiset of stickers. |
| CubeModel.FrontTurnTurnsFace | sine_wave.cpp:264-272 | A Front turn rotates the Front face's nine stickers clockwise about its fixed centre. |
| CubeModel.FrontTurnMovesEdges | sine_wave.cpp:282-290 | A Front turn sets Right[0,3,6] := Top[6,7,8], Bottom[2,1,0] := Right[0,3,6], Left[8,5,2] := Bottom[2,1,0] and Top[6,7,8] := Left[8,5,2], all from the old grid. This uses the corrected Left row (see Findings). |
| CubeModel.FrontTurnFromSolved | sine_wave.cpp:282-290 | From solved, a Front turn leaves the Front face solved. It moves each neighbour's colour one neighbour on, clockwise. |
| CubeModel.TurnsKeepStickers | sine_wave.cpp:361-364 | Any sequence of turns keeps the multiset of stickers. |
| CubeModel.TurnsFixCenters | sine_wave.cpp:361-364 | No sequence of turns moves a centre sticker. |
| CubeModel.TurnsFromSolvedColorCounts | sine_wave.cpp:361-364 | After any sequence of turns from the solved cube, each colour occurs exactly nine times. |
| CubeModel.FirstCell | sine_wave.cpp:368-373 | The first swapped cell is face `rand() % 6`, position `rand() % 9`, always a cell of the grid. |
| CubeModel.SecondCell | sine_wave.cpp:369-374 | The second swapped cell is face `rand() % 6`, position `rand() % 9`, always a cell of the grid. |
| CubeModel.Scrambled | sine_wave.cpp:366-376 | The swaps keep the multiset of stickers. |
| CubeModel.ScrambledStep | sine_wave.cpp:373-375 | One more iteration swaps the two cells of its draw in the grid left by the earlier iterations. |
| CubeModel.ScrambledKeepsColors | sine_wave.cpp:366-376 | A scramble keeps every cell a colour. |
| CubeModel.ScrambleCanMoveCenters | sine_wave.cpp:373-375 | One iteration that swaps the Front centre with a Back corner puts Back's colour on the Front centre. |
| CubeEngine.Cube.constructor | sine_wave.cpp:28-35 | The array starts as the solved grid. |
| CubeEngine.Cube.RotateFaceClockwise | sine_wave.cpp:253-273 | After copying the face to `temp` (loop invariant) and the nine writes, the array is the face-local quarter turn of its old contents. |
| CubeEngine.Cube.ShiftFrontEdges | sine_wave.cpp:282-290 | The Front case, cell by cell (Left row corrected), leaves the array equal to the Front edge step of its old contents. |
| CubeEngine.Cube.ShiftBackEdges | sine_wave.cpp:295-303 | The Back case, cell by cell, leaves the array equal to the Back edge step of its old contents. |
| CubeEngine.Cube.ShiftRightEdges | sine_wave.cpp:308-316 | The Right case, cell by cell, leaves the array equal to the Right edge step of its old contents. |
| CubeEngine.Cube.ShiftLeftEdges | sine_wave.cpp:321-329 | The Left case, cell by cell, leaves the array equal to the Left edge step of its old contents. |
| CubeEngine.Cube.ShiftTopEdges | sine_wave.cpp:334-342 | The Top case, cell by cell, leaves the array equal to the Top edge step of its old contents. |
| CubeEngine.Cube.ShiftBottomEdges | sine_wave.cpp:347-355 | The Bottom case, cell by cell, leaves the array equal to the Bottom edge step of its old contents. |
| CubeEngine.Cube.RotateAdjacentEdges | sine_wave.cpp:276-358 | For a face 0..5 the array becomes the edge step of that face. Any other value matches no case and leaves the array unchanged. |
| CubeEngine.Cube.PerformFaceRotation | sine_wave.cpp:361-364 | The array becomes the full quarter turn of its old contents. |
| CubeEngine.Cube.Scramble | sine_wave.cpp:365-377 | The loop's invariant is that after `i` iterations the array is the grid after the first `i` draws' swaps. At the end it is `Scrambled` of the old contents, and still coloured. |
| CubeEngine.Cube.Reset | sine_wave.cpp:380-386 | Whatever the array held, the nested loops leave it equal to the solved grid. |
| TurnAnimation.Initial | sine_wave.cpp:19-25 | The initial record: no face, not rotating, and the animation invariant holds. |
| TurnAnimation.Valid | sine_wave.cpp:19-25 | The invariant of the `faceRotation` record. The target is a multiple of 90, and a face is set exactly when the target is non-zero. An idle record shows its target, and a running one has between 0 and 90 degrees left. So the drawn angle is never ahead of the target nor more than a quarter turn behind it. |
| TurnAnimation.TickStep | sine_wave.cpp:484-493 | The tick keeps the face and the target. It leaves an idle record alone. A running one closes 15% of the gap while the gap exceeds 0.1; otherwise it snaps to the target and stops. |
| TurnAnimation.TriggerStep | sine_wave.cpp:567-614 | A turn key is ignored while a turn runs. Otherwise it names the face, adds 90 to the target, starts rotating and keeps the angle. |
| TurnAnimation.TickKeepsValid | sine_wave.cpp:484-493 | A tick preserves the animation invariant: the target is a multiple of 90, a face is set exactly when the target is non-zero, an idle record shows its target, and a running one has between 0 and 90 degrees left. |
| TurnAnimation.TriggerKeepsValid | sine_wave.cpp:567-614 | A turn key preserves the invariant. From idle it leaves exactly 90 degrees to draw. |
| TurnAnimation.Ticks | sine_wave.cpp:484-493 | Repeated ticks never change the face or the target, and leave an idle record alone. |
| TurnAnimation.TicksKeepValid | sine_wave.cpp:484-493 | Any number of ticks preserves the invariant. |
| TurnAnimation.TickShrinksGap | sine_wave.cpp:484-493 | A tick that does not snap closes at least 0.015 degrees of the gap. |
| TurnAnimation.TicksSettle | sine_wave.cpp:484-493 | A running record whose gap is at most `0.1 + n * 0.015` has stopped, showing its target, after `n + 1` ticks. |
| TurnAnimation.QuarterTurnSettles | sine_wave.cpp:484-493 | A quarter turn started from idle has finished drawing, one quarter turn on, after 6001 ticks. |
| TurnAnimation.FaceRotation.constructor | sine_wave.cpp:19-25 | The global record starts in the initial state. |
| TurnAnimation.FaceRotation.Tick | sine_wave.cpp:484-493 | The field updates of the tick leave the record equal to `TickStep` of its old state. |
| KeyboardControls.KeyFace | sine_wave.cpp:567-614 | A turn key names a face 0..5. |
| KeyboardControls.KeyStep | sine_wave.cpp:567-622 | A turn key while a turn is drawn changes neither the grid nor the record. From idle, it turns the grid by its face and starts the animation (`TriggerStep`). Space scrambles the grid and 'r'/'R' resets it, both leaving the record alone. Every other key changes neither. |
| KeyboardControls.KeyFacesAreDistinct | sine_wave.cpp:567-614 | '1'..'6' name Front, Back, Right, Left, Top and Bottom, and distinct keys name distinct faces. |
| KeyboardControls.KeyStepKeepsValid | sine_wave.cpp:567-622 | Every key keeps the grid coloured and the animation record valid. |
| KeyboardControls.KeyStepKeepsStickers | sine_wave.cpp:567-619 | Every key except reset keeps the multiset of stickers. |
| KeyboardControls.PressAndSettleTurns | sine_wave.cpp:567-614 | From idle, a turn key followed by 6001 ticks leaves the grid turned by that face. The record is then idle on that face, one quarter turn further on. |
| KeyboardControls.FourPressesRestore | sine_wave.cpp:567-614 | Pressing the same turn key four times, letting each turn finish, gives back the starting grid (for '1', with the corrected Front table). The target has then grown by 360 degrees. |
| KeyboardControls.ResetIsIdempotent | sine_wave.cpp:620-622 | Reset gives the solved grid, leaves the animation alone, and a second reset changes nothing. |
| KeyboardControls.HandleKey | sine_wave.cpp:567-622 | The handler's writes to the array and the record leave them equal to `KeyStep` of their old values. |
| FrontTurnAsWritten.AsWrittenFrontEdgeSource | sine_wave.cpp:282-290 | The Front case as written names a cell of the grid for every cell. |
| FrontTurnAsWritten.AsWrittenFrontTurn | sine_wave.cpp:282-290 | performFaceRotation(0) as written: the face step, then the twelve copies exactly as written. It leaves the Back face and every centre unchanged. |
| FrontTurnAsWritten.AsWrittenFrontWrites | sine_wave.cpp:282-290 | The Front case as the program runs it: save the Top triplet, then the twelve writes of lines 284-290 in order, each reading the grid as the earlier writes left it. The contract gives only the length; `AsWrittenFrontTurnIsWrites` ties it to `AsWrittenFrontTurn`. |
| FrontTurnAsWritten.AsWrittenFrontTurnIsWrites | sine_wave.cpp:282-290 | For every grid, the as-written turn equals the face step followed by the program's sequential Front writes. This covers Left[2,5,8] := Bottom[2,1,0] and the Top7, Right3, Bottom1, Left5 cycle. |
| FrontTurnAsWritten.AsWrittenFrontEightCycle | sine_wave.cpp:282-290 | As written, Top6, Right0, Bottom2, Left2, Top8, Right6, Bottom0 and Left8 form one 8-cycle. |
| FrontTurnAsWritten.AsWrittenFourFrontTurnsSwapLeft | sine_wave.cpp:282-290 | Four as-written Front turns exchange the stickers of Left[2] and Left[8]. |
| FrontTurnAsWritten.AsWrittenFrontTurnMovesLeftCorners | sine_wave.cpp:282-290 | Any grid whose Left[2] and Left[8] differ is not restored by four as-written Front turns. |
| FrontTurnAsWritten.TopTurnFillsLeft2 | sine_wave.cpp:334-342 | A Top turn brings Front[2] to Left[2]. |
| FrontTurnAsWritten.TopTurnKeepsLeft8 | sine_wave.cpp:334-342 | A Top turn leaves Left[8] alone. |
| FrontTurnAsWritten.AsWrittenFrontTurnHasNoOrderFour | sine_wave.cpp:282-290 | After one Top turn from solved, four as-written Front turns change the grid, while four corrected Front turns restore it. |

## Left out

- Rendering is not modelled: lighting, cubie and sticker drawing, the rotating-slice transform, text, the help overlay, reshape and the GLUT main loop. These only produce output through a library outside this model.
- The camera is not modelled: its easing, auto-rotate, mouse drag, the WASD keys, zoom with `fmax`/`fmin`, the help toggle, `exit(0)` on ESC and `glutPostRedisplay`. `KeyboardControls.KeyStep` treats all those keys as changing neither the grid nor the turn animation, which is what they do to those two.
- `srand(time(nullptr))` and `rand()` are not modelled. A scramble takes its fifty draws as a parameter instead, each a non-negative number as `rand()` returns.
- The `speed` field of `FaceRotation` is left out, because nothing reads it.
- TurnAnimation.TickStep: the angle is a `real` with exact arithmetic, not a single-precision `float`. The 0.15 damping and the 0.1 snap test are exact, so float rounding of the eased angle is not captured. `targetAngle` is an `int` of degrees, since it only grows by exactly 90 from 0.
- TurnAnimation.QuarterTurnSettles: 6001 ticks is a simple linear bound, not the actual number of ticks the geometric easing needs, which is far smaller.
- CubeModel.Ring: `Ring(Front)` copies Left[2,5,8] := Bottom[0,1,2], not line 286's Bottom[2,1,0]. `CubeModel.Turn`, `CubeModel.FrontTurnMovesEdges`, `CubeModel.TurnOrderFour`, `CubeEngine.Cube.RotateAdjacentEdges`, `CubeEngine.Cube.PerformFaceRotation`, `KeyboardControls.KeyStep`, `KeyboardControls.PressAndSettleTurns`, `KeyboardControls.FourPressesRestore` and `KeyboardControls.HandleKey` use that corrected table. For key '1', the program as written does not give back the grid after four presses. The as-written table is modelled in `FrontTurnAsWritten`.
- CubeEngine.Cube.ShiftFrontEdges: it performs the corrected copy Left[2,5,8] := Bottom[0,1,2] instead of the written Bottom[2,1,0]. The as-written behaviour is modelled and refuted in `FrontTurnAsWritten` (see Findings).
- CubeEngine.Cube.RotateAdjacentEdges: the one switch is split into six methods, one per case.
- KeyboardControls.HandleKey: the six near-identical turn-key cases are one branch with `face := key - '1'`.
- No consistency is proved between the edge tables and the renderer's mapping of stickers to 3-D positions. The model states only what the tables do to the grid.

## Findings

| source | as written | input that shows it | evidently intended | confidence | as-written member | corrected member |
|---|---|---|---|---|---|---|
| sine_wave.cpp:286 | The Front case copies Left[2] := Bottom[2] and Left[8] := Bottom[0]. With Top[6,7,8] := Left[8,5,2], this joins two of the edge cycles into one 8-cycle (Top6, Right0, Bottom2, Left2, Top8, Right6, Bottom0, Left8), so a Front turn does not have order four. | From solved, turn Top once, then turn Front four times. Left[2] (Front's colour) and Left[8] (Left's colour) come back exchanged, so the grid is not restored. | Left[2,5,8] := Bottom[0,1,2], which makes the Front case three 4-cycles like the other five faces, so four Front turns restore the cube. | high, not executed | FrontTurnAsWritten.AsWrittenFrontTurnHasNoOrderFour | CubeModel.TurnOrderFour |
