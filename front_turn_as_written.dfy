/**
 The Front case of the edge propagation exactly as the program writes it.

 The program copies Bottom[2,1,0] into Left[2,5,8]: Left[2] := Bottom[2] and
 Left[8] := Bottom[0]. Together with Top[6,7,8] := Left[8,5,2] this joins two
 of the three 4-cycles of the ring into one 8-cycle
   Top6 -> Right0 -> Bottom2 -> Left2 -> Top8 -> Right6 -> Bottom0 -> Left8 -> Top6,
 so four Front turns exchange Left[2] with Left[8] (and Top[6] with Top[8],
 Right[0] with Right[6], Bottom[0] with Bottom[2]) instead of restoring the
 cube. The corrected table `CubeModel.Ring(Front)` copies Bottom[0,1,2] into
 Left[2,5,8], and `CubeModel.TurnOrderFour` proves four turns restore the cube.
 */
module FrontTurnAsWritten {
  import opened CubeModel

  /** Source cell of `i` under the Front edge propagation as written. */
  function AsWrittenFrontEdgeSource(i: int): (j: int)
    requires IsCell(i)
    ensures IsCell(j)
  {
    // Top <- Left
    if i == Idx(Top, 6) then Idx(Left, 8)
    else if i == Idx(Top, 7) then Idx(Left, 5)
    else if i == Idx(Top, 8) then Idx(Left, 2)
    // Left <- Bottom, in the order the program writes
    else if i == Idx(Left, 2) then Idx(Bottom, 2)
    else if i == Idx(Left, 5) then Idx(Bottom, 1)
    else if i == Idx(Left, 8) then Idx(Bottom, 0)
    // Bottom <- Right
    else if i == Idx(Bottom, 0) then Idx(Right, 6)
    else if i == Idx(Bottom, 1) then Idx(Right, 3)
    else if i == Idx(Bottom, 2) then Idx(Right, 0)
    // Right <- saved Top
    else if i == Idx(Right, 0) then Idx(Top, 6)
    else if i == Idx(Right, 3) then Idx(Top, 7)
    else if i == Idx(Right, 6) then Idx(Top, 8)
    else i
  }

  /** performFaceRotation(0) as written: the face step, then the as-written edge step. */
  function AsWrittenFrontTurn(g: seq<int>): (h: seq<int>)
    requires IsGrid(g)
    ensures IsGrid(h)
    ensures forall i :: OnFace(Back, i) ==> h[i] == g[i]
    ensures forall c :: IsFace(c) ==> h[Idx(c, Center)] == g[Idx(c, Center)]
  {
    var s := FaceStep(g, Front);
    seq(CellCount, i requires IsCell(i) => s[AsWrittenFrontEdgeSource(i)])
  }

  /**
   The Front case of rotateAdjacentEdges as the program runs it on grid `s`:
   save the Top triplet, then twelve writes in program order, each reading
   the grid as the earlier writes left it.
   */
  function AsWrittenFrontWrites(s: seq<int>): (t: seq<int>)
    requires IsGrid(s)
    ensures IsGrid(t)
  {
    var t0, t1, t2 := s[Idx(Top, 6)], s[Idx(Top, 7)], s[Idx(Top, 8)];
    // Top <- Left
    var s1 := s[Idx(Top, 6) := s[Idx(Left, 8)]];
    var s2 := s1[Idx(Top, 7) := s1[Idx(Left, 5)]];
    var s3 := s2[Idx(Top, 8) := s2[Idx(Left, 2)]];
    // Left <- Bottom
    var s4 := s3[Idx(Left, 2) := s3[Idx(Bottom, 2)]];
    var s5 := s4[Idx(Left, 5) := s4[Idx(Bottom, 1)]];
    var s6 := s5[Idx(Left, 8) := s5[Idx(Bottom, 0)]];
    // Bottom <- Right
    var s7 := s6[Idx(Bottom, 0) := s6[Idx(Right, 6)]];
    var s8 := s7[Idx(Bottom, 1) := s7[Idx(Right, 3)]];
    var s9 := s8[Idx(Bottom, 2) := s8[Idx(Right, 0)]];
    // Right <- Top (from temp)
    s9[Idx(Right, 0) := t0][Idx(Right, 3) := t1][Idx(Right, 6) := t2]
  }

  /** The as-written turn is exactly the face step followed by the program's sequential Front writes. */
  lemma AsWrittenFrontTurnIsWrites(g: seq<int>)
    requires IsGrid(g)
    ensures AsWrittenFrontTurn(g) == AsWrittenFrontWrites(FaceStep(g, Front))
  {
    var s := FaceStep(g, Front);
    forall i | IsCell(i) ensures AsWrittenFrontTurn(g)[i] == AsWrittenFrontWrites(s)[i] {
    }
  }

  function FourAsWrittenFrontTurns(g: seq<int>): (h: seq<int>)
    requires IsGrid(g)
    ensures IsGrid(h)
  {
    AsWrittenFrontTurn(AsWrittenFrontTurn(AsWrittenFrontTurn(AsWrittenFrontTurn(g))))
  }

  /** Off the Front face, an as-written turn takes each cell from its edge source. */
  lemma AsWrittenFrontTurnAt(g: seq<int>, i: int)
    requires IsGrid(g) && IsCell(i) && !OnFace(Front, AsWrittenFrontEdgeSource(i))
    ensures AsWrittenFrontTurn(g)[i] == g[AsWrittenFrontEdgeSource(i)]
  {
  }

  /** The eight ring cells the as-written edge propagation moves along one cycle. */
  lemma AsWrittenFrontEightCycle()
    ensures AsWrittenFrontEdgeSource(Idx(Left, 2)) == Idx(Bottom, 2)
    ensures AsWrittenFrontEdgeSource(Idx(Bottom, 2)) == Idx(Right, 0)
    ensures AsWrittenFrontEdgeSource(Idx(Right, 0)) == Idx(Top, 6)
    ensures AsWrittenFrontEdgeSource(Idx(Top, 6)) == Idx(Left, 8)
    ensures AsWrittenFrontEdgeSource(Idx(Left, 8)) == Idx(Bottom, 0)
    ensures AsWrittenFrontEdgeSource(Idx(Bottom, 0)) == Idx(Right, 6)
    ensures AsWrittenFrontEdgeSource(Idx(Right, 6)) == Idx(Top, 8)
    ensures AsWrittenFrontEdgeSource(Idx(Top, 8)) == Idx(Left, 2)
  {
  }

  /** Four as-written Front turns exchange the stickers at Left[2] and Left[8]. */
  lemma AsWrittenFourFrontTurnsSwapLeft(g: seq<int>)
    requires IsGrid(g)
    ensures FourAsWrittenFrontTurns(g)[Idx(Left, 2)] == g[Idx(Left, 8)]
    ensures FourAsWrittenFrontTurns(g)[Idx(Left, 8)] == g[Idx(Left, 2)]
  {
    var a1 := AsWrittenFrontTurn(g);
    var a2 := AsWrittenFrontTurn(a1);
    var a3 := AsWrittenFrontTurn(a2);
    AsWrittenFrontEightCycle();
    // Left2 <- Bottom2 <- Right0 <- Top6 <- Left8
    AsWrittenFrontTurnAt(a3, Idx(Left, 2));
    AsWrittenFrontTurnAt(a2, Idx(Bottom, 2));
    AsWrittenFrontTurnAt(a1, Idx(Right, 0));
    AsWrittenFrontTurnAt(g, Idx(Top, 6));
    // Left8 <- Bottom0 <- Right6 <- Top8 <- Left2
    AsWrittenFrontTurnAt(a3, Idx(Left, 8));
    AsWrittenFrontTurnAt(a2, Idx(Bottom, 0));
    AsWrittenFrontTurnAt(a1, Idx(Right, 6));
    AsWrittenFrontTurnAt(g, Idx(Top, 8));
  }

  /** Any grid whose Left[2] and Left[8] differ is not restored by four as-written Front turns. */
  lemma AsWrittenFrontTurnMovesLeftCorners(g: seq<int>)
    requires IsGrid(g) && g[Idx(Left, 2)] != g[Idx(Left, 8)]
    ensures FourAsWrittenFrontTurns(g) != g
  {
    AsWrittenFourFrontTurnsSwapLeft(g);
    assert FourAsWrittenFrontTurns(g)[Idx(Left, 2)] != g[Idx(Left, 2)];
  }

  /** A Top turn brings Front[2] to Left[2]. */
  lemma TopTurnFillsLeft2(g: seq<int>)
    requires IsGrid(g)
    ensures Turn(g, Top)[Idx(Left, 2)] == g[Idx(Front, 2)]
  {
    var r := Ring(Top);
    assert r == [0, 1, 2, 27, 28, 29, 9, 10, 11, 18, 19, 20];
    TopRingShape();
    var h := FaceStep(g, Top);
    assert Turn(g, Top) == RingStep(h, r);
    RingStepAt(h, r, 5);
  }

  /** A Top turn leaves Left[8] alone. */
  lemma TopTurnKeepsLeft8(g: seq<int>)
    requires IsGrid(g)
    ensures Turn(g, Top)[Idx(Left, 8)] == g[Idx(Left, 8)]
  {
    var r := Ring(Top);
    assert r == [0, 1, 2, 27, 28, 29, 9, 10, 11, 18, 19, 20];
    var h := FaceStep(g, Top);
    assert RingSource(r, Idx(Left, 8)) == Idx(Left, 8);
    assert Turn(g, Top)[Idx(Left, 8)] == h[RingSource(r, Idx(Left, 8))];
  }

  /**
   After one Top turn from the solved cube, four as-written Front turns
   leave a different grid, while four corrected turns give it back.
   */
  lemma AsWrittenFrontTurnHasNoOrderFour()
    ensures var g := Turn(Solved(), Top);
      && FourAsWrittenFrontTurns(g) != g
      && Turn(Turn(Turn(Turn(g, Front), Front), Front), Front) == g
  {
    var g := Turn(Solved(), Top);
    TopTurnFillsLeft2(Solved());
    TopTurnKeepsLeft8(Solved());
    AsWrittenFrontTurnMovesLeftCorners(g);
    TurnOrderFour(g, Front);
  }
}
