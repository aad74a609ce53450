/**
 The sticker grid `cubeState` as the program keeps it: one array that the
 turn, scramble and reset routines overwrite cell by cell. Cell `9 * f + p`
 holds `cubeState[f][p]`. Each routine is proved to leave the array equal to
 the pure grid operation of the same name in `CubeModel`.
 */
module CubeEngine {
  import opened CubeModel

  class Cube {
    const cells: array<int>

    /** Fifty-four cells, each holding a colour. */
    ghost predicate Valid()
      reads this, cells
    {
      cells.Length == CellCount && HasColors(cells[..])
    }

    /** The solved cube the program starts with. */
    constructor ()
      ensures Valid() && fresh(cells)
      ensures cells[..] == Solved()
    {
      cells := new int[CellCount](i => i / FaceSize);
      new;
      assert cells[..] == Solved();
    }

    /** rotateFaceClockwise: copy face `face` into a buffer and write back its clockwise permutation. */
    method RotateFaceClockwise(face: int)
      requires Valid() && IsFace(face)
      modifies cells
      ensures Valid()
      ensures cells[..] == FaceStep(old(cells[..]), face)
    {
      ghost var g := cells[..];
      var temp := new int[FaceSize];
      for i := 0 to FaceSize
        invariant cells[..] == g
        invariant forall k :: 0 <= k < i ==> temp[k] == g[Idx(face, k)]
      {
        temp[i] := cells[Idx(face, i)];
      }
      var base := Idx(face, 0);
      cells[base + 0] := temp[6];
      ghost var s0 := cells[..];
      assert s0 == g[base + 0 := g[base + 6]];
      cells[base + 1] := temp[3];
      ghost var s1 := cells[..];
      assert s1 == s0[base + 1 := g[base + 3]];
      cells[base + 2] := temp[0];
      ghost var s2 := cells[..];
      assert s2 == s1[base + 2 := g[base + 0]];
      cells[base + 3] := temp[7];
      ghost var s3 := cells[..];
      assert s3 == s2[base + 3 := g[base + 7]];
      cells[base + 4] := temp[4]; // the centre stays
      ghost var s4 := cells[..];
      assert s4 == s3[base + 4 := g[base + 4]];
      cells[base + 5] := temp[1];
      ghost var s5 := cells[..];
      assert s5 == s4[base + 5 := g[base + 1]];
      cells[base + 6] := temp[8];
      ghost var s6 := cells[..];
      assert s6 == s5[base + 6 := g[base + 8]];
      cells[base + 7] := temp[5];
      ghost var s7 := cells[..];
      assert s7 == s6[base + 7 := g[base + 5]];
      cells[base + 8] := temp[2];
      ghost var s8 := cells[..];
      assert s8 == s7[base + 8 := g[base + 2]];
      assert s8 == FaceWrites(g, base);
      FaceWritesAreFaceStep(g, face, base);
      FaceStepKeepsColors(g, face);
    }

    /** The Front case of rotateAdjacentEdges, with Left[2,5,8] := Bottom[0,1,2] (see `FrontTurnAsWritten`). */
    method ShiftFrontEdges()
      requires Valid()
      modifies cells
      ensures Valid()
      ensures cells[..] == EdgeStep(old(cells[..]), Front)
    {
      ghost var g := cells[..];
      ghost var r := Ring(Front);
      FrontRingShape();
      var temp := new int[3];
      // save the Top triplet
      temp[0] := cells[Idx(Top, 6)]; temp[1] := cells[Idx(Top, 7)]; temp[2] := cells[Idx(Top, 8)];
      // Top <- Left
      cells[Idx(Top, 6)] := cells[Idx(Left, 8)]; cells[Idx(Top, 7)] := cells[Idx(Left, 5)]; cells[Idx(Top, 8)] := cells[Idx(Left, 2)];
      assert cells[..] == ShiftTriplet(g, r, 0, 9, false);
      ghost var s1 := cells[..];
      // Left <- Bottom
      cells[Idx(Left, 2)] := cells[Idx(Bottom, 0)]; cells[Idx(Left, 5)] := cells[Idx(Bottom, 1)]; cells[Idx(Left, 8)] := cells[Idx(Bottom, 2)];
      assert cells[..] == ShiftTriplet(s1, r, 9, 6, true);
      ghost var s2 := cells[..];
      // Bottom <- Right
      cells[Idx(Bottom, 0)] := cells[Idx(Right, 6)]; cells[Idx(Bottom, 1)] := cells[Idx(Right, 3)]; cells[Idx(Bottom, 2)] := cells[Idx(Right, 0)];
      assert cells[..] == ShiftTriplet(s2, r, 6, 3, true);
      ghost var s3 := cells[..];
      // Right <- Top (from temp)
      cells[Idx(Right, 0)] := temp[0]; cells[Idx(Right, 3)] := temp[1]; cells[Idx(Right, 6)] := temp[2];
      assert cells[..] == RestoreTriplet(s3, g, r, false);
      SequentialShiftIsRingStep(g, r, [false, true, true, false]);
      EdgeStepKeepsColors(g, Front);
    }

    /** The Back case of rotateAdjacentEdges. */
    method ShiftBackEdges()
      requires Valid()
      modifies cells
      ensures Valid()
      ensures cells[..] == EdgeStep(old(cells[..]), Back)
    {
      ghost var g := cells[..];
      ghost var r := Ring(Back);
      BackRingShape();
      var temp := new int[3];
      // save the Top triplet
      temp[0] := cells[Idx(Top, 0)]; temp[1] := cells[Idx(Top, 1)]; temp[2] := cells[Idx(Top, 2)];
      // Top <- Right
      cells[Idx(Top, 0)] := cells[Idx(Right, 2)]; cells[Idx(Top, 1)] := cells[Idx(Right, 5)]; cells[Idx(Top, 2)] := cells[Idx(Right, 8)];
      assert cells[..] == ShiftTriplet(g, r, 0, 9, false);
      ghost var s1 := cells[..];
      // Right <- Bottom
      cells[Idx(Right, 2)] := cells[Idx(Bottom, 8)]; cells[Idx(Right, 5)] := cells[Idx(Bottom, 7)]; cells[Idx(Right, 8)] := cells[Idx(Bottom, 6)];
      assert cells[..] == ShiftTriplet(s1, r, 9, 6, false);
      ghost var s2 := cells[..];
      // Bottom <- Left
      cells[Idx(Bottom, 6)] := cells[Idx(Left, 0)]; cells[Idx(Bottom, 7)] := cells[Idx(Left, 3)]; cells[Idx(Bottom, 8)] := cells[Idx(Left, 6)];
      assert cells[..] == ShiftTriplet(s2, r, 6, 3, true);
      ghost var s3 := cells[..];
      // Left <- Top (from temp)
      cells[Idx(Left, 0)] := temp[2]; cells[Idx(Left, 3)] := temp[1]; cells[Idx(Left, 6)] := temp[0];
      assert cells[..] == RestoreTriplet(s3, g, r, true);
      SequentialShiftIsRingStep(g, r, [false, false, true, true]);
      EdgeStepKeepsColors(g, Back);
    }

    /** The Right case of rotateAdjacentEdges. */
    method ShiftRightEdges()
      requires Valid()
      modifies cells
      ensures Valid()
      ensures cells[..] == EdgeStep(old(cells[..]), Right)
    {
      ghost var g := cells[..];
      ghost var r := Ring(Right);
      RightRingShape();
      var temp := new int[3];
      // save the Top triplet
      temp[0] := cells[Idx(Top, 2)]; temp[1] := cells[Idx(Top, 5)]; temp[2] := cells[Idx(Top, 8)];
      // Top <- Front
      cells[Idx(Top, 2)] := cells[Idx(Front, 2)]; cells[Idx(Top, 5)] := cells[Idx(Front, 5)]; cells[Idx(Top, 8)] := cells[Idx(Front, 8)];
      assert cells[..] == ShiftTriplet(g, r, 0, 9, false);
      ghost var s1 := cells[..];
      // Front <- Bottom
      cells[Idx(Front, 2)] := cells[Idx(Bottom, 2)]; cells[Idx(Front, 5)] := cells[Idx(Bottom, 5)]; cells[Idx(Front, 8)] := cells[Idx(Bottom, 8)];
      assert cells[..] == ShiftTriplet(s1, r, 9, 6, false);
      ghost var s2 := cells[..];
      // Bottom <- Back
      cells[Idx(Bottom, 2)] := cells[Idx(Back, 6)]; cells[Idx(Bottom, 5)] := cells[Idx(Back, 3)]; cells[Idx(Bottom, 8)] := cells[Idx(Back, 0)];
      assert cells[..] == ShiftTriplet(s2, r, 6, 3, false);
      ghost var s3 := cells[..];
      // Back <- Top (from temp)
      cells[Idx(Back, 0)] := temp[2]; cells[Idx(Back, 3)] := temp[1]; cells[Idx(Back, 6)] := temp[0];
      assert cells[..] == RestoreTriplet(s3, g, r, true);
      SequentialShiftIsRingStep(g, r, [false, false, false, true]);
      EdgeStepKeepsColors(g, Right);
    }

    /** The Left case of rotateAdjacentEdges. */
    method ShiftLeftEdges()
      requires Valid()
      modifies cells
      ensures Valid()
      ensures cells[..] == EdgeStep(old(cells[..]), Left)
    {
      ghost var g := cells[..];
      ghost var r := Ring(Left);
      LeftRingShape();
      var temp := new int[3];
      // save the Top triplet
      temp[0] := cells[Idx(Top, 0)]; temp[1] := cells[Idx(Top, 3)]; temp[2] := cells[Idx(Top, 6)];
      // Top <- Back
      cells[Idx(Top, 0)] := cells[Idx(Back, 8)]; cells[Idx(Top, 3)] := cells[Idx(Back, 5)]; cells[Idx(Top, 6)] := cells[Idx(Back, 2)];
      assert cells[..] == ShiftTriplet(g, r, 0, 9, false);
      ghost var s1 := cells[..];
      // Back <- Bottom
      cells[Idx(Back, 2)] := cells[Idx(Bottom, 6)]; cells[Idx(Back, 5)] := cells[Idx(Bottom, 3)]; cells[Idx(Back, 8)] := cells[Idx(Bottom, 0)];
      assert cells[..] == ShiftTriplet(s1, r, 9, 6, true);
      ghost var s2 := cells[..];
      // Bottom <- Front
      cells[Idx(Bottom, 0)] := cells[Idx(Front, 0)]; cells[Idx(Bottom, 3)] := cells[Idx(Front, 3)]; cells[Idx(Bottom, 6)] := cells[Idx(Front, 6)];
      assert cells[..] == ShiftTriplet(s2, r, 6, 3, false);
      ghost var s3 := cells[..];
      // Front <- Top (from temp)
      cells[Idx(Front, 0)] := temp[0]; cells[Idx(Front, 3)] := temp[1]; cells[Idx(Front, 6)] := temp[2];
      assert cells[..] == RestoreTriplet(s3, g, r, false);
      SequentialShiftIsRingStep(g, r, [false, true, false, false]);
      EdgeStepKeepsColors(g, Left);
    }

    /** The Top case of rotateAdjacentEdges. */
    method ShiftTopEdges()
      requires Valid()
      modifies cells
      ensures Valid()
      ensures cells[..] == EdgeStep(old(cells[..]), Top)
    {
      ghost var g := cells[..];
      ghost var r := Ring(Top);
      TopRingShape();
      var temp := new int[3];
      // save the Front triplet
      temp[0] := cells[Idx(Front, 0)]; temp[1] := cells[Idx(Front, 1)]; temp[2] := cells[Idx(Front, 2)];
      // Front <- Right
      cells[Idx(Front, 0)] := cells[Idx(Right, 0)]; cells[Idx(Front, 1)] := cells[Idx(Right, 1)]; cells[Idx(Front, 2)] := cells[Idx(Right, 2)];
      assert cells[..] == ShiftTriplet(g, r, 0, 9, false);
      ghost var s1 := cells[..];
      // Right <- Back
      cells[Idx(Right, 0)] := cells[Idx(Back, 0)]; cells[Idx(Right, 1)] := cells[Idx(Back, 1)]; cells[Idx(Right, 2)] := cells[Idx(Back, 2)];
      assert cells[..] == ShiftTriplet(s1, r, 9, 6, false);
      ghost var s2 := cells[..];
      // Back <- Left
      cells[Idx(Back, 0)] := cells[Idx(Left, 0)]; cells[Idx(Back, 1)] := cells[Idx(Left, 1)]; cells[Idx(Back, 2)] := cells[Idx(Left, 2)];
      assert cells[..] == ShiftTriplet(s2, r, 6, 3, false);
      ghost var s3 := cells[..];
      // Left <- Front (from temp)
      cells[Idx(Left, 0)] := temp[0]; cells[Idx(Left, 1)] := temp[1]; cells[Idx(Left, 2)] := temp[2];
      assert cells[..] == RestoreTriplet(s3, g, r, false);
      SequentialShiftIsRingStep(g, r, [false, false, false, false]);
      EdgeStepKeepsColors(g, Top);
    }

    /** The Bottom case of rotateAdjacentEdges. */
    method ShiftBottomEdges()
      requires Valid()
      modifies cells
      ensures Valid()
      ensures cells[..] == EdgeStep(old(cells[..]), Bottom)
    {
      ghost var g := cells[..];
      ghost var r := Ring(Bottom);
      BottomRingShape();
      var temp := new int[3];
      // save the Front triplet
      temp[0] := cells[Idx(Front, 6)]; temp[1] := cells[Idx(Front, 7)]; temp[2] := cells[Idx(Front, 8)];
      // Front <- Left
      cells[Idx(Front, 6)] := cells[Idx(Left, 6)]; cells[Idx(Front, 7)] := cells[Idx(Left, 7)]; cells[Idx(Front, 8)] := cells[Idx(Left, 8)];
      assert cells[..] == ShiftTriplet(g, r, 0, 9, false);
      ghost var s1 := cells[..];
      // Left <- Back
      cells[Idx(Left, 6)] := cells[Idx(Back, 6)]; cells[Idx(Left, 7)] := cells[Idx(Back, 7)]; cells[Idx(Left, 8)] := cells[Idx(Back, 8)];
      assert cells[..] == ShiftTriplet(s1, r, 9, 6, false);
      ghost var s2 := cells[..];
      // Back <- Right
      cells[Idx(Back, 6)] := cells[Idx(Right, 6)]; cells[Idx(Back, 7)] := cells[Idx(Right, 7)]; cells[Idx(Back, 8)] := cells[Idx(Right, 8)];
      assert cells[..] == ShiftTriplet(s2, r, 6, 3, false);
      ghost var s3 := cells[..];
      // Right <- Front (from temp)
      cells[Idx(Right, 6)] := temp[0]; cells[Idx(Right, 7)] := temp[1]; cells[Idx(Right, 8)] := temp[2];
      assert cells[..] == RestoreTriplet(s3, g, r, false);
      SequentialShiftIsRingStep(g, r, [false, false, false, false]);
      EdgeStepKeepsColors(g, Bottom);
    }

    /** rotateAdjacentEdges: the case of the switch for `face`; a value outside 0..5 matches no case and changes nothing. */
    method RotateAdjacentEdges(face: int)
      requires Valid()
      modifies cells
      ensures Valid()
      ensures IsFace(face) ==> cells[..] == EdgeStep(old(cells[..]), face)
      ensures !IsFace(face) ==> cells[..] == old(cells[..])
    {
      if face == Front {
        ShiftFrontEdges();
      } else if face == Back {
        ShiftBackEdges();
      } else if face == Right {
        ShiftRightEdges();
      } else if face == Left {
        ShiftLeftEdges();
      } else if face == Top {
        ShiftTopEdges();
      } else if face == Bottom {
        ShiftBottomEdges();
      }
    }

    /** performFaceRotation: the face-local step, then the edge step. */
    method PerformFaceRotation(face: int)
      requires Valid() && IsFace(face)
      modifies cells
      ensures Valid()
      ensures cells[..] == Turn(old(cells[..]), face)
    {
      RotateFaceClockwise(face);
      RotateAdjacentEdges(face);
    }

    /**
     scrambleCube: fifty swaps of two cells, the cells named by the draws
     that stand for the program's `rand()` calls.
     */
    method Scramble(draws: seq<Draw>)
      requires Valid() && |draws| == ScrambleSwaps
      modifies cells
      ensures Valid()
      ensures cells[..] == Scrambled(old(cells[..]), draws)
    {
      ghost var g := cells[..];
      for i := 0 to ScrambleSwaps
        invariant Valid()
        invariant cells[..] == Scrambled(g, draws[..i])
      {
        ghost var before := cells[..];
        var face1 := draws[i].face1 % FaceCount;
        var face2 := draws[i].face2 % FaceCount;
        var pos1 := draws[i].pos1 % FaceSize;
        var pos2 := draws[i].pos2 % FaceSize;
        var first, second := Idx(face1, pos1), Idx(face2, pos2);
        var temp := cells[first];
        cells[first] := cells[second];
        ghost var s1 := cells[..];
        assert s1 == before[first := before[second]];
        cells[second] := temp;
        assert cells[..] == Swap(before, FirstCell(draws[i]), SecondCell(draws[i]));
        ScrambledStep(g, draws, i);
        SameStickersKeepColors(before, cells[..]);
      }
      assert draws[..ScrambleSwaps] == draws;
    }

    /** resetCube: whatever the cells hold, every face gets its own colour back. */
    method Reset()
      requires cells.Length == CellCount
      modifies cells
      ensures Valid()
      ensures cells[..] == Solved()
    {
      for face := 0 to FaceCount
        invariant forall f, p :: 0 <= f < face && IsPos(p) ==> cells[Idx(f, p)] == f
      {
        for pos := 0 to FaceSize
          invariant forall f, p :: 0 <= f < face && IsPos(p) ==> cells[Idx(f, p)] == f
          invariant forall p :: 0 <= p < pos ==> cells[Idx(face, p)] == face
        {
          cells[Idx(face, pos)] := face;
        }
      }
      SolvedIsUnique(cells[..]);
    }
  }
}
