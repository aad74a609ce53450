/**
 The logical Rubik's cube of sine_wave.cpp, as values.

 A grid lists the 54 stickers face by face, nine per face, exactly as
 `int cubeState[6][9]` lies in memory: sticker `p` of face `f` is cell
 `9 * f + p`. Every step of the engine is described pointwise by a
 "source" function: the new value of cell `i` is the old value of cell
 `Source(i)`. The lemmas below show that each step is a permutation of the
 cells (so colours are conserved), that face turns fix every centre, and
 that four quarter turns of one face give back the grid.
 */
module CubeModel {

  // Faces, in the row order of the sticker grid.
  const Front := 0
  const Back := 1
  const Right := 2
  const Left := 3
  const Top := 4
  const Bottom := 5

  const FaceCount := 6
  const FaceSize := 9
  const CellCount := 54
  /** The centre position of every face. */
  const Center := 4

  predicate IsFace(f: int) { 0 <= f < FaceCount }
  predicate IsPos(p: int) { 0 <= p < FaceSize }
  predicate IsCell(i: int) { 0 <= i < CellCount }
  predicate IsColor(c: int) { 0 <= c < FaceCount }

  predicate IsGrid(g: seq<int>) { |g| == CellCount }

  /** Every sticker holds one of the six colour indices. */
  predicate HasColors(g: seq<int>) {
    IsGrid(g) && forall i :: 0 <= i < |g| ==> IsColor(g[i])
  }

  /** The cell of sticker `p` on face `f`. */
  function Idx(f: int, p: int): (i: int)
    requires IsFace(f) && IsPos(p)
    ensures IsCell(i) && OnFace(f, i)
  {
    FaceSize * f + p
  }

  /** Cell `i` is one of the nine stickers of face `f`. */
  predicate OnFace(f: int, i: int) {
    FaceSize * f <= i < FaceSize * f + FaceSize
  }

  /** The face across the cube: Front/Back, Right/Left, Top/Bottom (`f ^ 1`). */
  function Opposite(f: int): (o: int)
    requires IsFace(f)
    ensures IsFace(o) && o != f
  {
    if f % 2 == 0 then f + 1 else f - 1
  }

  /** The solved cube: every sticker of face `f` has colour `f`. */
  function Solved(): (g: seq<int>)
    ensures HasColors(g)
    ensures forall f, p :: IsFace(f) && IsPos(p) ==> g[Idx(f, p)] == f
  {
    seq(CellCount, i => i / FaceSize)
  }

  /** A grid whose every face shows only its own colour is the solved grid. */
  lemma SolvedIsUnique(g: seq<int>)
    requires IsGrid(g)
    requires forall f, p :: IsFace(f) && IsPos(p) ==> g[Idx(f, p)] == f
    ensures g == Solved()
  {
    forall i | IsCell(i) ensures g[i] == Solved()[i] {
      var f, p := i / FaceSize, i % FaceSize;
      assert i == Idx(f, p);
    }
  }

  // ---------------------------------------------------------------------
  // Multiset bookkeeping: swaps and 4-cycles of cells keep the colours.
  // ---------------------------------------------------------------------

  /** Exchanges the stickers of cells `i` and `j`; a no-op when `i == j`. */
  function Swap(g: seq<int>, i: int, j: int): (h: seq<int>)
    requires 0 <= i < |g| && 0 <= j < |g|
    ensures |h| == |g| && h[i] == g[j] && h[j] == g[i]
    ensures forall k :: 0 <= k < |g| && k != i && k != j ==> h[k] == g[k]
    ensures i == j ==> h == g
    ensures multiset(h) == multiset(g)
  {
    g[i := g[j]][j := g[i]]
  }

  /** Four distinct cells. */
  predicate Distinct4(a: int, b: int, c: int, d: int) {
    a != b && a != c && a != d && b != c && b != d && c != d
  }

  /** Source cell of `k` when the stickers of `a`, `b`, `c`, `d` move one step along that cycle. */
  function CycleSource(a: int, b: int, c: int, d: int, k: int): (j: int)
    ensures j == k || j == a || j == b || j == c || j == d
  {
    if k == b then a else if k == c then b else if k == d then c else if k == a then d else k
  }

  /** Moves the sticker of cell `a` to `b`, `b` to `c`, `c` to `d` and `d` to `a`. */
  function Cycle4(g: seq<int>, a: int, b: int, c: int, d: int): (h: seq<int>)
    requires 0 <= a < |g| && 0 <= b < |g| && 0 <= c < |g| && 0 <= d < |g|
    ensures |h| == |g|
  {
    seq(|g|, k requires 0 <= k < |g| => g[CycleSource(a, b, c, d, k)])
  }

  lemma Cycle4At(g: seq<int>, a: int, b: int, c: int, d: int, k: int)
    requires 0 <= a < |g| && 0 <= b < |g| && 0 <= c < |g| && 0 <= d < |g| && 0 <= k < |g|
    ensures 0 <= CycleSource(a, b, c, d, k) < |g|
    ensures Cycle4(g, a, b, c, d)[k] == g[CycleSource(a, b, c, d, k)]
  {
  }

  /** A 4-cycle of distinct cells is three swaps, so it only permutes stickers. */
  lemma Cycle4KeepsStickers(g: seq<int>, a: int, b: int, c: int, d: int)
    requires 0 <= a < |g| && 0 <= b < |g| && 0 <= c < |g| && 0 <= d < |g|
    requires Distinct4(a, b, c, d)
    ensures multiset(Cycle4(g, a, b, c, d)) == multiset(g)
  {
    var s1 := Swap(g, a, b);
    var s2 := Swap(s1, a, c);
    var s3 := Swap(s2, a, d);
    assert Cycle4(g, a, b, c, d) == s3 by {
      forall k | 0 <= k < |g| ensures Cycle4(g, a, b, c, d)[k] == s3[k] {
        Cycle4At(g, a, b, c, d, k);
        if k == a {
          assert s3[k] == s2[d] == s1[d] == g[d];
        } else if k == b {
          assert s3[k] == s2[k] == s1[k] == g[a];
        } else if k == c {
          assert s3[k] == s2[k] == s1[a] == g[b];
        } else if k == d {
          assert s3[k] == s2[a] == s1[c] == g[c];
        } else {
          assert s3[k] == s2[k] == s1[k] == g[k];
        }
      }
    }
  }

  /** A grid whose multiset of stickers is that of a coloured grid is coloured too. */
  lemma {:induction false} SameStickersKeepColors(g: seq<int>, h: seq<int>)
    requires HasColors(g) && IsGrid(h) && multiset(h) == multiset(g)
    ensures HasColors(h)
  {
    forall i | 0 <= i < |h| ensures IsColor(h[i]) {
      assert h[i] in multiset(h);
      assert h[i] in g;
    }
  }

  // ---------------------------------------------------------------------
  // Face-local quarter turn (rotateFaceClockwise).
  // ---------------------------------------------------------------------

  /** The position whose sticker a clockwise quarter turn moves into position `p`. */
  function ClockwiseSource(p: int): (q: int)
    requires IsPos(p)
    ensures IsPos(q)
    ensures (q == p) <==> p == Center
  {
    [6, 3, 0, 7, 4, 1, 8, 5, 2][p]
  }

  /** Four clockwise quarter turns bring every position back, and only the centre stays put. */
  lemma ClockwiseSourceOrderFour(p: int)
    requires IsPos(p)
    ensures ClockwiseSource(ClockwiseSource(ClockwiseSource(ClockwiseSource(p)))) == p
    ensures (ClockwiseSource(p) == p) <==> p == Center
  {
    if p == 0 { } else if p == 1 { } else if p == 2 { } else if p == 3 { }
    else if p == 4 { } else if p == 5 { } else if p == 6 { } else if p == 7 { }
    else { assert p == 8; }
  }

  /** Source cell of `i` under the face-local quarter turn of face `f`. */
  function FaceSource(f: int, i: int): (j: int)
    requires IsFace(f) && IsCell(i)
    ensures IsCell(j) && (OnFace(f, j) <==> OnFace(f, i))
  {
    if OnFace(f, i) then Idx(f, ClockwiseSource(i - FaceSize * f)) else i
  }

  /** The grid after the face-local quarter turn of face `f`. */
  function FaceStep(g: seq<int>, f: int): (h: seq<int>)
    requires IsGrid(g) && IsFace(f)
    ensures IsGrid(h)
    ensures forall i :: IsCell(i) && !OnFace(f, i) ==> h[i] == g[i]
    ensures h[Idx(f, Center)] == g[Idx(f, Center)]
  {
    seq(CellCount, i requires IsCell(i) => g[FaceSource(f, i)])
  }

  /** Sticker `p` of the turning face receives sticker `ClockwiseSource(p)`. */
  lemma FaceStepAt(g: seq<int>, f: int, p: int)
    requires IsGrid(g) && IsFace(f) && IsPos(p)
    ensures FaceStep(g, f)[Idx(f, p)] == g[Idx(f, ClockwiseSource(p))]
  {
  }

  /** The nine writes of the program, in its order, starting from `g`. */
  function FaceWrites(g: seq<int>, b: int): (h: seq<int>)
    requires IsGrid(g) && 0 <= b && b + FaceSize <= CellCount
    ensures IsGrid(h)
  {
    g[b := g[b + 6]][b + 1 := g[b + 3]][b + 2 := g[b]]
     [b + 3 := g[b + 7]][b + 4 := g[b + 4]][b + 5 := g[b + 1]]
     [b + 6 := g[b + 8]][b + 7 := g[b + 5]][b + 8 := g[b + 2]]
  }

  /** The nine writes 0 1 2 / 3 4 5 / 6 7 8 -> 6 3 0 / 7 4 1 / 8 5 2 compute the face quarter turn. */
  lemma FaceWritesAreFaceStep(g: seq<int>, f: int, b: int)
    requires IsGrid(g) && IsFace(f) && b == Idx(f, 0)
    ensures FaceWrites(g, b) == FaceStep(g, f)
  {
    var h := FaceWrites(g, b);
    forall i | IsCell(i) ensures h[i] == FaceStep(g, f)[i] {
      if OnFace(f, i) {
        var p := i - b;
        assert IsPos(p) && Idx(f, p) == i;
        FaceStepAt(g, f, p);
        if p == 0 {} else if p == 1 {} else if p == 2 {} else if p == 3 {}
        else if p == 4 {} else if p == 5 {} else if p == 6 {} else if p == 7 {} else {}
      }
    }
  }

  lemma FaceSourceOrderFour(f: int, i: int)
    requires IsFace(f) && IsCell(i)
    ensures FaceSource(f, FaceSource(f, FaceSource(f, FaceSource(f, i)))) == i
  {
    if OnFace(f, i) {
      ClockwiseSourceOrderFour(i - FaceSize * f);
    }
  }

  /** Four face-local quarter turns of the same face give back the grid. */
  lemma FaceStepOrderFour(g: seq<int>, f: int)
    requires IsGrid(g) && IsFace(f)
    ensures FaceStep(FaceStep(FaceStep(FaceStep(g, f), f), f), f) == g
  {
    var h := FaceStep(FaceStep(FaceStep(FaceStep(g, f), f), f), f);
    forall i | IsCell(i) ensures h[i] == g[i] {
      FaceSourceOrderFour(f, i);
    }
  }

  /** The face-local quarter turn is two 4-cycles: the corners and the edge stickers. */
  lemma FaceSourceIsTwoCycles(f: int, i: int)
    requires IsFace(f) && IsCell(i)
    ensures FaceSource(f, i)
         == CycleSource(Idx(f, 0), Idx(f, 2), Idx(f, 8), Idx(f, 6),
              CycleSource(Idx(f, 1), Idx(f, 5), Idx(f, 7), Idx(f, 3), i))
  {
    if OnFace(f, i) {
      var p := i - FaceSize * f;
      if p == 0 { } else if p == 1 { } else if p == 2 { } else if p == 3 { }
      else if p == 4 { } else if p == 5 { } else if p == 6 { } else if p == 7 { }
      else { assert p == 8; }
    }
  }

  /** The face-local quarter turn only permutes stickers. */
  lemma FaceStepKeepsStickers(g: seq<int>, f: int)
    requires IsGrid(g) && IsFace(f)
    ensures multiset(FaceStep(g, f)) == multiset(g)
  {
    var c0, c2, c8, c6 := Idx(f, 0), Idx(f, 2), Idx(f, 8), Idx(f, 6);
    var e1, e5, e7, e3 := Idx(f, 1), Idx(f, 5), Idx(f, 7), Idx(f, 3);
    var corners := Cycle4(g, c0, c2, c8, c6);
    var both := Cycle4(corners, e1, e5, e7, e3);
    assert FaceStep(g, f) == both by {
      forall i | IsCell(i) ensures FaceStep(g, f)[i] == both[i] {
        FaceSourceIsTwoCycles(f, i);
        var j := CycleSource(e1, e5, e7, e3, i);
        Cycle4At(corners, e1, e5, e7, e3, i);
        Cycle4At(g, c0, c2, c8, c6, j);
      }
    }
    Cycle4KeepsStickers(g, c0, c2, c8, c6);
    Cycle4KeepsStickers(corners, e1, e5, e7, e3);
  }

  /** The face quarter turn keeps a coloured grid coloured. */
  lemma FaceStepKeepsColors(g: seq<int>, f: int)
    requires HasColors(g) && IsFace(f)
    ensures HasColors(FaceStep(g, f))
  {
    FaceStepKeepsStickers(g, f);
    SameStickersKeepColors(g, FaceStep(g, f));
  }

  // ---------------------------------------------------------------------
  // Edge propagation (rotateAdjacentEdges).
  // ---------------------------------------------------------------------

  /**
   The ring of face `f`: four triplets of cells on its four neighbours, in
   turning order. Triplet `t + 1` receives triplet `t` (and triplet 0
   receives triplet 3), sticker by sticker, so cell `r[k]` receives the
   sticker of cell `r[(k + 9) % 12]`.
   */
  function Ring(f: int): (r: seq<int>)
    requires IsFace(f)
    ensures |r| == 12
  {
    if f == Front then
      [Idx(Top, 6), Idx(Top, 7), Idx(Top, 8), Idx(Right, 0), Idx(Right, 3), Idx(Right, 6),
       Idx(Bottom, 2), Idx(Bottom, 1), Idx(Bottom, 0), Idx(Left, 8), Idx(Left, 5), Idx(Left, 2)]
    else if f == Back then
      [Idx(Top, 0), Idx(Top, 1), Idx(Top, 2), Idx(Left, 6), Idx(Left, 3), Idx(Left, 0),
       Idx(Bottom, 8), Idx(Bottom, 7), Idx(Bottom, 6), Idx(Right, 2), Idx(Right, 5), Idx(Right, 8)]
    else if f == Right then
      [Idx(Top, 2), Idx(Top, 5), Idx(Top, 8), Idx(Back, 6), Idx(Back, 3), Idx(Back, 0),
       Idx(Bottom, 2), Idx(Bottom, 5), Idx(Bottom, 8), Idx(Front, 2), Idx(Front, 5), Idx(Front, 8)]
    else if f == Left then
      [Idx(Top, 0), Idx(Top, 3), Idx(Top, 6), Idx(Front, 0), Idx(Front, 3), Idx(Front, 6),
       Idx(Bottom, 0), Idx(Bottom, 3), Idx(Bottom, 6), Idx(Back, 8), Idx(Back, 5), Idx(Back, 2)]
    else if f == Top then
      [Idx(Front, 0), Idx(Front, 1), Idx(Front, 2), Idx(Left, 0), Idx(Left, 1), Idx(Left, 2),
       Idx(Back, 0), Idx(Back, 1), Idx(Back, 2), Idx(Right, 0), Idx(Right, 1), Idx(Right, 2)]
    else
      [Idx(Front, 6), Idx(Front, 7), Idx(Front, 8), Idx(Right, 6), Idx(Right, 7), Idx(Right, 8),
       Idx(Back, 6), Idx(Back, 7), Idx(Back, 8), Idx(Left, 6), Idx(Left, 7), Idx(Left, 8)]
  }

  /** Twelve distinct cells. */
  predicate IsRing(r: seq<int>) {
    |r| == 12
    && (forall k :: 0 <= k < 12 ==> IsCell(r[k]))
    && (forall a, b :: 0 <= a < b < 12 ==> r[a] != r[b])
  }

  /**
   The shape every edge table must have: twelve distinct cells, none on
   face `f`, none on its opposite face (so all on its four neighbours) and
   no centre among them.
   */
  predicate IsRingOf(f: int, r: seq<int>)
    requires IsFace(f)
  {
    IsRing(r)
    && forall k :: 0 <= k < 12 ==>
         !OnFace(f, r[k]) && !OnFace(Opposite(f), r[k]) && r[k] % FaceSize != Center
  }

  lemma FrontRingShape() ensures IsRingOf(Front, Ring(Front)) { }
  lemma BackRingShape() ensures IsRingOf(Back, Ring(Back)) { }
  lemma RightRingShape() ensures IsRingOf(Right, Ring(Right)) { }
  lemma LeftRingShape() ensures IsRingOf(Left, Ring(Left)) { }
  lemma TopRingShape() ensures IsRingOf(Top, Ring(Top)) { }
  lemma BottomRingShape() ensures IsRingOf(Bottom, Ring(Bottom)) { }

  lemma RingMissesCenters(f: int, r: seq<int>)
    requires IsFace(f) && IsRingOf(f, r)
    ensures forall c :: IsFace(c) ==> Idx(c, Center) !in r
  {
    forall c | IsFace(c) ensures Idx(c, Center) % FaceSize == Center { }
  }

  /** Every edge table has the shape of a ring around its face. */
  lemma RingShape(f: int)
    requires IsFace(f)
    ensures IsRingOf(f, Ring(f))
  {
    if f == Front { FrontRingShape(); }
    else if f == Back { BackRingShape(); }
    else if f == Right { RightRingShape(); }
    else if f == Left { LeftRingShape(); }
    else if f == Top { TopRingShape(); }
    else { BottomRingShape(); }
  }

  /** Source cell of `i` when ring `r` shifts by one triplet; cells off the ring keep their sticker. */
  function RingSource(r: seq<int>, i: int): (j: int)
    requires |r| == 12
    ensures j == i || j in r
    ensures i !in r ==> j == i
  {
    if i == r[0] then r[9] else if i == r[1] then r[10] else if i == r[2] then r[11]
    else if i == r[3] then r[0] else if i == r[4] then r[1] else if i == r[5] then r[2]
    else if i == r[6] then r[3] else if i == r[7] then r[4] else if i == r[8] then r[5]
    else if i == r[9] then r[6] else if i == r[10] then r[7] else if i == r[11] then r[8]
    else i
  }

  /** On the ring, cell `r[k]` receives the sticker of `r[k - 3]`, the same place one triplet back. */
  lemma RingSourceAt(r: seq<int>, k: int)
    requires IsRing(r) && 0 <= k < 12
    ensures RingSource(r, r[k]) == r[(k + 9) % 12]
  {
  }

  lemma {:induction false} RingSourceOrderFour(r: seq<int>, i: int)
    requires IsRing(r)
    ensures RingSource(r, RingSource(r, RingSource(r, RingSource(r, i)))) == i
  {
    if i in r {
      var k :| 0 <= k < 12 && r[k] == i;
      RingSourceAt(r, k);
      RingSourceAt(r, (k + 9) % 12);
      RingSourceAt(r, (k + 18) % 12);
      RingSourceAt(r, (k + 27) % 12);
    }
  }

  /** The grid after ring `r` shifts by one triplet. */
  function RingStep(g: seq<int>, r: seq<int>): (h: seq<int>)
    requires IsGrid(g) && IsRing(r)
    ensures IsGrid(h)
    ensures forall i :: IsCell(i) && i !in r ==> h[i] == g[i]
  {
    seq(CellCount, i requires IsCell(i) => g[RingSource(r, i)])
  }

  /**
   Copy the triplet of `r` starting at `src` into the triplet starting at
   `dst`, cell by cell: first to last, or last to first when `backwards`.
   */
  function ShiftTriplet(s: seq<int>, r: seq<int>, dst: int, src: int, backwards: bool): (t: seq<int>)
    requires IsGrid(s) && IsRing(r) && 0 <= dst <= 9 && 0 <= src <= 9
    ensures IsGrid(t)
  {
    if !backwards then
      var a := s[r[dst] := s[r[src]]];
      var b := a[r[dst + 1] := a[r[src + 1]]];
      b[r[dst + 2] := b[r[src + 2]]]
    else
      var a := s[r[dst + 2] := s[r[src + 2]]];
      var b := a[r[dst + 1] := a[r[src + 1]]];
      b[r[dst] := b[r[src]]]
  }

  /** Write the saved first triplet of `g` into the second triplet, in either order. */
  function RestoreTriplet(s: seq<int>, g: seq<int>, r: seq<int>, backwards: bool): (t: seq<int>)
    requires IsGrid(s) && IsGrid(g) && IsRing(r)
    ensures IsGrid(t)
  {
    if !backwards then s[r[3] := g[r[0]]][r[4] := g[r[1]]][r[5] := g[r[2]]]
    else s[r[5] := g[r[2]]][r[4] := g[r[1]]][r[3] := g[r[0]]]
  }

  /**
   The edge propagation the way the program performs it: save the first
   triplet, copy the fourth into the first, the third into the fourth, the
   second into the third, and the saved values into the second. `backwards[t]`
   says whether copy `t` walks its triplet from the last cell to the first.
   */
  function SequentialShift(g: seq<int>, r: seq<int>, backwards: seq<bool>): (h: seq<int>)
    requires IsGrid(g) && IsRing(r) && |backwards| == 4
    ensures IsGrid(h)
  {
    var s1 := ShiftTriplet(g, r, 0, 9, backwards[0]);
    var s2 := ShiftTriplet(s1, r, 9, 6, backwards[1]);
    var s3 := ShiftTriplet(s2, r, 6, 3, backwards[2]);
    RestoreTriplet(s3, g, r, backwards[3])
  }

  /**
   Every cell the sequential shift reads is read before it is overwritten
   (the first triplet through the saved copy), so in whatever order each
   triplet is walked, it equals the simultaneous shift of the ring.
   */
  lemma SequentialShiftIsRingStep(g: seq<int>, r: seq<int>, backwards: seq<bool>)
    requires IsGrid(g) && IsRing(r) && |backwards| == 4
    ensures SequentialShift(g, r, backwards) == RingStep(g, r)
  {
    var h := SequentialShift(g, r, backwards);
    forall i | IsCell(i) ensures h[i] == RingStep(g, r)[i] {
      if i in r {
        var k :| 0 <= k < 12 && r[k] == i;
        RingSourceAt(r, k);
        if k < 3 {
          assert (k + 9) % 12 == k + 9;
          SequentialShiftFirst(g, r, backwards, k);
        } else if k < 6 {
          assert (k + 9) % 12 == k - 3;
          SequentialShiftSecond(g, r, backwards, k - 3);
        } else if k < 9 {
          assert (k + 9) % 12 == k - 3;
          SequentialShiftThird(g, r, backwards, k - 6);
        } else {
          assert (k + 9) % 12 == k - 3;
          SequentialShiftFourth(g, r, backwards, k - 9);
        }
      } else {
        SequentialShiftOffRing(g, r, backwards, i);
      }
    }
  }

  lemma SequentialShiftOffRing(g: seq<int>, r: seq<int>, backwards: seq<bool>, i: int)
    requires IsGrid(g) && IsRing(r) && |backwards| == 4 && IsCell(i) && i !in r
    ensures SequentialShift(g, r, backwards)[i] == g[i]
  {
    var s1 := ShiftTriplet(g, r, 0, 9, backwards[0]);
    var s2 := ShiftTriplet(s1, r, 9, 6, backwards[1]);
    var s3 := ShiftTriplet(s2, r, 6, 3, backwards[2]);
    TripletOffRing(g, r, 0, 9, backwards[0], i);
    TripletOffRing(s1, r, 9, 6, backwards[1], i);
    TripletOffRing(s2, r, 6, 3, backwards[2], i);
    RestoreOffRing(s3, g, r, backwards[3], i);
  }

  lemma RestoreOffRing(s: seq<int>, g: seq<int>, r: seq<int>, backwards: bool, i: int)
    requires IsGrid(s) && IsGrid(g) && IsRing(r) && IsCell(i) && i !in r
    ensures RestoreTriplet(s, g, r, backwards)[i] == s[i]
  {
    assert i != r[3] && i != r[4] && i != r[5];
  }

  /** Copying a triplet leaves every cell off the ring alone. */
  lemma TripletOffRing(s: seq<int>, r: seq<int>, dst: int, src: int, backwards: bool, i: int)
    requires IsGrid(s) && IsRing(r) && 0 <= dst <= 9 && 0 <= src <= 9 && IsCell(i) && i !in r
    ensures ShiftTriplet(s, r, dst, src, backwards)[i] == s[i]
  {
    assert i != r[dst] && i != r[dst + 1] && i != r[dst + 2];
  }

  /** The first triplet ends up with the fourth triplet's stickers. */
  lemma SequentialShiftFirst(g: seq<int>, r: seq<int>, backwards: seq<bool>, j: int)
    requires IsGrid(g) && IsRing(r) && |backwards| == 4 && 0 <= j < 3
    ensures SequentialShift(g, r, backwards)[r[j]] == g[r[j + 9]]
  {
    var s1 := ShiftTriplet(g, r, 0, 9, backwards[0]);
    var s2 := ShiftTriplet(s1, r, 9, 6, backwards[1]);
    var s3 := ShiftTriplet(s2, r, 6, 3, backwards[2]);
    RestoreMoves(s3, g, r, backwards[3], j);
    TripletKeeps(s2, r, 6, 3, backwards[2], j);
    TripletKeeps(s1, r, 9, 6, backwards[1], j);
    TripletMoves(g, r, 0, 9, backwards[0], j);
  }

  /** The second triplet ends up with the saved first triplet's stickers. */
  lemma SequentialShiftSecond(g: seq<int>, r: seq<int>, backwards: seq<bool>, j: int)
    requires IsGrid(g) && IsRing(r) && |backwards| == 4 && 0 <= j < 3
    ensures SequentialShift(g, r, backwards)[r[j + 3]] == g[r[j]]
  {
    var s1 := ShiftTriplet(g, r, 0, 9, backwards[0]);
    var s2 := ShiftTriplet(s1, r, 9, 6, backwards[1]);
    var s3 := ShiftTriplet(s2, r, 6, 3, backwards[2]);
    RestoreMoves(s3, g, r, backwards[3], j + 3);
  }

  /** The third triplet ends up with the second triplet's stickers, copied before they were overwritten. */
  lemma SequentialShiftThird(g: seq<int>, r: seq<int>, backwards: seq<bool>, j: int)
    requires IsGrid(g) && IsRing(r) && |backwards| == 4 && 0 <= j < 3
    ensures SequentialShift(g, r, backwards)[r[j + 6]] == g[r[j + 3]]
  {
    var s1 := ShiftTriplet(g, r, 0, 9, backwards[0]);
    var s2 := ShiftTriplet(s1, r, 9, 6, backwards[1]);
    var s3 := ShiftTriplet(s2, r, 6, 3, backwards[2]);
    RestoreMoves(s3, g, r, backwards[3], j + 6);
    TripletMoves(s2, r, 6, 3, backwards[2], j);
    TripletKeeps(s1, r, 9, 6, backwards[1], j + 3);
    TripletKeeps(g, r, 0, 9, backwards[0], j + 3);
  }

  /** The fourth triplet ends up with the third triplet's stickers, copied before they were overwritten. */
  lemma SequentialShiftFourth(g: seq<int>, r: seq<int>, backwards: seq<bool>, j: int)
    requires IsGrid(g) && IsRing(r) && |backwards| == 4 && 0 <= j < 3
    ensures SequentialShift(g, r, backwards)[r[j + 9]] == g[r[j + 6]]
  {
    var s1 := ShiftTriplet(g, r, 0, 9, backwards[0]);
    var s2 := ShiftTriplet(s1, r, 9, 6, backwards[1]);
    var s3 := ShiftTriplet(s2, r, 6, 3, backwards[2]);
    RestoreMoves(s3, g, r, backwards[3], j + 9);
    TripletKeeps(s2, r, 6, 3, backwards[2], j + 9);
    TripletMoves(s1, r, 9, 6, backwards[1], j);
    TripletKeeps(g, r, 0, 9, backwards[0], j + 6);
  }

  /** The last copy, from the saved first triplet into the second triplet. */
  lemma RestoreMoves(s: seq<int>, g: seq<int>, r: seq<int>, backwards: bool, k: int)
    requires IsGrid(s) && IsGrid(g) && IsRing(r) && 0 <= k < 12
    ensures var h := RestoreTriplet(s, g, r, backwards);
      && (3 <= k < 6 ==> h[r[k]] == g[r[k - 3]])
      && (!(3 <= k < 6) ==> h[r[k]] == s[r[k]])
  {
  }

  /** Copying a triplet moves each of its three cells. */
  lemma TripletMoves(s: seq<int>, r: seq<int>, dst: int, src: int, backwards: bool, j: int)
    requires IsGrid(s) && IsRing(r) && 0 <= dst <= 9 && 0 <= src <= 9 && 0 <= j < 3
    requires dst + 3 <= src || src + 3 <= dst
    ensures ShiftTriplet(s, r, dst, src, backwards)[r[dst + j]] == s[r[src + j]]
  {
  }

  /** Copying a triplet leaves the cells of every other triplet alone. */
  lemma TripletKeeps(s: seq<int>, r: seq<int>, dst: int, src: int, backwards: bool, k: int)
    requires IsGrid(s) && IsRing(r) && 0 <= dst <= 9 && 0 <= src <= 9 && 0 <= k < 12
    requires !(dst <= k < dst + 3)
    ensures ShiftTriplet(s, r, dst, src, backwards)[r[k]] == s[r[k]]
  {
  }

  /**
   Shifting a ring is three disjoint 4-cycles: one through the first, one
   through the second and one through the third stickers of the triplets.
   */
  lemma RingSourceIsThreeCycles(r: seq<int>, i: int)
    requires IsRing(r)
    ensures RingSource(r, i)
         == CycleSource(r[2], r[5], r[8], r[11],
              CycleSource(r[1], r[4], r[7], r[10],
                CycleSource(r[0], r[3], r[6], r[9], i)))
  {
  }

  /** The three cycles of a ring, applied to a grid. */
  function RingCycles(g: seq<int>, r: seq<int>): (h: seq<int>)
    requires IsGrid(g) && IsRing(r)
    ensures IsGrid(h)
  {
    Cycle4(Cycle4(Cycle4(g, r[2], r[5], r[8], r[11]), r[1], r[4], r[7], r[10]), r[0], r[3], r[6], r[9])
  }

  lemma RingStepIsThreeCycles(g: seq<int>, r: seq<int>)
    requires IsGrid(g) && IsRing(r)
    ensures RingStep(g, r) == RingCycles(g, r)
  {
    var c2 := Cycle4(g, r[2], r[5], r[8], r[11]);
    var c1 := Cycle4(c2, r[1], r[4], r[7], r[10]);
    var c0 := Cycle4(c1, r[0], r[3], r[6], r[9]);
    forall i | IsCell(i) ensures RingStep(g, r)[i] == c0[i] {
      var j0 := CycleSource(r[0], r[3], r[6], r[9], i);
      var j1 := CycleSource(r[1], r[4], r[7], r[10], j0);
      var j2 := CycleSource(r[2], r[5], r[8], r[11], j1);
      Cycle4At(c1, r[0], r[3], r[6], r[9], i);
      Cycle4At(c2, r[1], r[4], r[7], r[10], j0);
      Cycle4At(g, r[2], r[5], r[8], r[11], j1);
      RingSourceIsThreeCycles(r, i);
    }
  }

  /** Shifting a ring only permutes stickers. */
  lemma RingStepKeepsStickers(g: seq<int>, r: seq<int>)
    requires IsGrid(g) && IsRing(r)
    ensures multiset(RingStep(g, r)) == multiset(g)
  {
    RingStepIsThreeCycles(g, r);
    var c1 := Cycle4(g, r[2], r[5], r[8], r[11]);
    var c2 := Cycle4(c1, r[1], r[4], r[7], r[10]);
    Cycle4KeepsStickers(g, r[2], r[5], r[8], r[11]);
    Cycle4KeepsStickers(c1, r[1], r[4], r[7], r[10]);
    Cycle4KeepsStickers(c2, r[0], r[3], r[6], r[9]);
  }

  /** Source cell of `i` under the edge propagation of face `f`. */
  function EdgeSource(f: int, i: int): (j: int)
    requires IsFace(f) && IsCell(i)
    ensures IsCell(j)
  {
    RingShape(f);
    RingSource(Ring(f), i)
  }

  /**
   The grid after the edge propagation of face `f`. It writes only the
   twelve ring cells, so it never changes the turning face, the opposite
   face or any centre, and it only permutes stickers.
   */
  function EdgeStep(g: seq<int>, f: int): (h: seq<int>)
    requires IsGrid(g) && IsFace(f)
    ensures IsGrid(h)
    ensures forall i :: IsCell(i) && (OnFace(f, i) || OnFace(Opposite(f), i)) ==> h[i] == g[i]
    ensures forall c :: IsFace(c) ==> h[Idx(c, Center)] == g[Idx(c, Center)]
  {
    RingShape(f);
    RingMissesCenters(f, Ring(f));
    RingStep(g, Ring(f))
  }

  /** Edge propagation only permutes stickers. */
  lemma EdgeStepKeepsStickers(g: seq<int>, f: int)
    requires IsGrid(g) && IsFace(f)
    ensures multiset(EdgeStep(g, f)) == multiset(g)
  {
    RingShape(f);
    RingStepKeepsStickers(g, Ring(f));
  }

  /** Edge propagation keeps a coloured grid coloured. */
  lemma EdgeStepKeepsColors(g: seq<int>, f: int)
    requires HasColors(g) && IsFace(f)
    ensures HasColors(EdgeStep(g, f))
  {
    EdgeStepKeepsStickers(g, f);
    SameStickersKeepColors(g, EdgeStep(g, f));
  }

  /** Four edge propagations of the same face give back the grid. */
  lemma EdgeStepOrderFour(g: seq<int>, f: int)
    requires IsGrid(g) && IsFace(f)
    ensures EdgeStep(EdgeStep(EdgeStep(EdgeStep(g, f), f), f), f) == g
  {
    RingShape(f);
    var r := Ring(f);
    var h := RingStep(RingStep(RingStep(RingStep(g, r), r), r), r);
    forall i | IsCell(i) ensures h[i] == g[i] {
      RingSourceOrderFour(r, i);
    }
  }

  // ---------------------------------------------------------------------
  // A full quarter turn (performFaceRotation).
  // ---------------------------------------------------------------------

  /** The face step and the edge step of a face act on disjoint cells, so their sources commute. */
  lemma StepSourcesCommute(f: int, r: seq<int>, i: int)
    requires IsFace(f) && IsRingOf(f, r) && IsCell(i)
    ensures FaceSource(f, RingSource(r, i)) == RingSource(r, FaceSource(f, i))
  {
  }

  /** Source cell of `i` under a full quarter turn of face `f`. */
  function TurnSource(f: int, i: int): (j: int)
    requires IsFace(f) && IsCell(i)
    ensures IsCell(j)
  {
    FaceSource(f, EdgeSource(f, i))
  }

  /**
   The grid after a clockwise quarter turn of face `f`: the face-local step
   followed by the edge step.
   */
  function Turn(g: seq<int>, f: int): (h: seq<int>)
    requires IsGrid(g) && IsFace(f)
    ensures IsGrid(h)
    ensures forall i :: IsCell(i) && OnFace(Opposite(f), i) ==> h[i] == g[i]
    ensures forall c :: IsFace(c) ==> h[Idx(c, Center)] == g[Idx(c, Center)]
  {
    TurnedCellsOffFace(f);
    EdgeStep(FaceStep(g, f), f)
  }

  /** The face step of `f` moves neither the opposite face nor another face's centre. */
  lemma TurnedCellsOffFace(f: int)
    requires IsFace(f)
    ensures forall i :: OnFace(Opposite(f), i) ==> !OnFace(f, i)
    ensures forall c :: IsFace(c) && c != f ==> !OnFace(f, Idx(c, Center))
  {
  }

  /** A turn only permutes stickers: the multiset of the 54 colours is unchanged. */
  lemma TurnKeepsStickers(g: seq<int>, f: int)
    requires IsGrid(g) && IsFace(f)
    ensures multiset(Turn(g, f)) == multiset(g)
  {
    FaceStepKeepsStickers(g, f);
    EdgeStepKeepsStickers(FaceStep(g, f), f);
  }

  lemma TurnAt(g: seq<int>, f: int, i: int)
    requires IsGrid(g) && IsFace(f) && IsCell(i)
    ensures Turn(g, f)[i] == g[TurnSource(f, i)]
  {
  }

  /** Shifting ring `r` moves each sticker on it one triplet along. */
  lemma RingStepAt(g: seq<int>, r: seq<int>, k: int)
    requires IsGrid(g) && IsRing(r) && 0 <= k < 12
    ensures RingStep(g, r)[r[k]] == g[r[(k + 9) % 12]]
  {
    RingSourceAt(r, k);
  }

  /** Four turn sources are four edge sources followed by four face sources. */
  lemma TurnSourcePower(f: int, i: int)
    requires IsFace(f) && IsCell(i)
    ensures TurnSource(f, TurnSource(f, TurnSource(f, TurnSource(f, i))))
         == FaceSource(f, FaceSource(f, FaceSource(f, FaceSource(f,
              EdgeSource(f, EdgeSource(f, EdgeSource(f, EdgeSource(f, i))))))))
  {
    RingShape(f);
    var r := Ring(f);
    var e1 := EdgeSource(f, i);
    var e2 := EdgeSource(f, e1);
    var e3 := EdgeSource(f, e2);
    StepSourcesCommute(f, r, e1);
    StepSourcesCommute(f, r, e2);
    StepSourcesCommute(f, r, FaceSource(f, e2));
    StepSourcesCommute(f, r, e3);
    StepSourcesCommute(f, r, FaceSource(f, e3));
    StepSourcesCommute(f, r, FaceSource(f, FaceSource(f, e3)));
  }

  lemma TurnSourceOrderFour(f: int, i: int)
    requires IsFace(f) && IsCell(i)
    ensures TurnSource(f, TurnSource(f, TurnSource(f, TurnSource(f, i)))) == i
  {
    TurnSourcePower(f, i);
    RingShape(f);
    RingSourceOrderFour(Ring(f), i);
    FaceSourceOrderFour(f, i);
  }

  /** Four clockwise quarter turns of the same face give back the exact grid. */
  lemma TurnOrderFour(g: seq<int>, f: int)
    requires IsGrid(g) && IsFace(f)
    ensures Turn(Turn(Turn(Turn(g, f), f), f), f) == g
  {
    var g1 := Turn(g, f);
    var g2 := Turn(g1, f);
    var g3 := Turn(g2, f);
    var g4 := Turn(g3, f);
    forall i | IsCell(i) ensures g4[i] == g[i] {
      var s1 := TurnSource(f, i);
      var s2 := TurnSource(f, s1);
      var s3 := TurnSource(f, s2);
      TurnAt(g3, f, i);
      TurnAt(g2, f, s1);
      TurnAt(g1, f, s2);
      TurnAt(g, f, s3);
      TurnSourceOrderFour(f, i);
    }
  }

  /** A Front turn turns the Front face clockwise about its fixed centre. */
  lemma FrontTurnTurnsFace(g: seq<int>)
    requires IsGrid(g)
    ensures var h := Turn(g, Front);
      && h[Idx(Front, 0)] == g[Idx(Front, 6)] && h[Idx(Front, 1)] == g[Idx(Front, 3)]
      && h[Idx(Front, 2)] == g[Idx(Front, 0)] && h[Idx(Front, 3)] == g[Idx(Front, 7)]
      && h[Idx(Front, 4)] == g[Idx(Front, 4)] && h[Idx(Front, 5)] == g[Idx(Front, 1)]
      && h[Idx(Front, 6)] == g[Idx(Front, 8)] && h[Idx(Front, 7)] == g[Idx(Front, 5)]
      && h[Idx(Front, 8)] == g[Idx(Front, 2)]
  {
    var h := FaceStep(g, Front);
    assert Turn(g, Front) == EdgeStep(h, Front);
    FaceStepAt(g, Front, 0); FaceStepAt(g, Front, 1); FaceStepAt(g, Front, 2);
    FaceStepAt(g, Front, 3); FaceStepAt(g, Front, 4); FaceStepAt(g, Front, 5);
    FaceStepAt(g, Front, 6); FaceStepAt(g, Front, 7); FaceStepAt(g, Front, 8);
  }

  /**
   A Front turn carries the edge triplets Top -> Right -> Bottom -> Left -> Top:
   Right[0,3,6] := Top[6,7,8], Bottom[2,1,0] := Right[0,3,6],
   Left[8,5,2] := Bottom[2,1,0] and Top[6,7,8] := Left[8,5,2].
   */
  lemma FrontTurnMovesEdges(g: seq<int>)
    requires IsGrid(g)
    ensures var h := Turn(g, Front);
      && h[Idx(Right, 0)] == g[Idx(Top, 6)] && h[Idx(Right, 3)] == g[Idx(Top, 7)]
      && h[Idx(Right, 6)] == g[Idx(Top, 8)]
      && h[Idx(Bottom, 2)] == g[Idx(Right, 0)] && h[Idx(Bottom, 1)] == g[Idx(Right, 3)]
      && h[Idx(Bottom, 0)] == g[Idx(Right, 6)]
      && h[Idx(Left, 8)] == g[Idx(Bottom, 2)] && h[Idx(Left, 5)] == g[Idx(Bottom, 1)]
      && h[Idx(Left, 2)] == g[Idx(Bottom, 0)]
      && h[Idx(Top, 6)] == g[Idx(Left, 8)] && h[Idx(Top, 7)] == g[Idx(Left, 5)]
      && h[Idx(Top, 8)] == g[Idx(Left, 2)]
  {
    var r := Ring(Front);
    FrontRingShape();
    var h := FaceStep(g, Front);
    assert Turn(g, Front) == RingStep(h, r);
    RingStepAt(h, r, 0); RingStepAt(h, r, 1); RingStepAt(h, r, 2);
    RingStepAt(h, r, 3); RingStepAt(h, r, 4); RingStepAt(h, r, 5);
    RingStepAt(h, r, 6); RingStepAt(h, r, 7); RingStepAt(h, r, 8);
    RingStepAt(h, r, 9); RingStepAt(h, r, 10); RingStepAt(h, r, 11);
  }

  /**
   From the solved cube, a Front turn leaves the Front face solved and moves the
   Top colour into Right's left column, Right's colour into Bottom's top row,
   Bottom's colour into Left's right column and Left's colour into Top's bottom row.
   */
  lemma FrontTurnFromSolved()
    ensures var h := Turn(Solved(), Front);
      && (forall p :: IsPos(p) ==> h[Idx(Front, p)] == Front)
      && h[Idx(Right, 0)] == Top && h[Idx(Right, 3)] == Top && h[Idx(Right, 6)] == Top
      && h[Idx(Bottom, 0)] == Right && h[Idx(Bottom, 1)] == Right && h[Idx(Bottom, 2)] == Right
      && h[Idx(Left, 2)] == Bottom && h[Idx(Left, 5)] == Bottom && h[Idx(Left, 8)] == Bottom
      && h[Idx(Top, 6)] == Left && h[Idx(Top, 7)] == Left && h[Idx(Top, 8)] == Left
  {
    var g := Solved();
    FrontTurnTurnsFace(g);
    FrontTurnMovesEdges(g);
    var h := Turn(g, Front);
    forall p | IsPos(p) ensures h[Idx(Front, p)] == Front {
      var q := if p == 0 then 6 else if p == 1 then 3 else if p == 2 then 0 else if p == 3 then 7
               else if p == 4 then 4 else if p == 5 then 1 else if p == 6 then 8 else if p == 7 then 5 else 2;
      assert h[Idx(Front, p)] == g[Idx(Front, q)];
    }
  }

  // ---------------------------------------------------------------------
  // Sequences of turns: colours are conserved and centres stay.
  // ---------------------------------------------------------------------

  predicate AllFaces(fs: seq<int>) {
    forall k :: 0 <= k < |fs| ==> IsFace(fs[k])
  }

  /** The grid after turning the faces of `fs`, first to last. */
  function Turns(g: seq<int>, fs: seq<int>): (h: seq<int>)
    requires IsGrid(g) && AllFaces(fs)
    ensures IsGrid(h)
    decreases |fs|
  {
    if fs == [] then g else Turn(Turns(g, fs[..|fs| - 1]), fs[|fs| - 1])
  }

  /** Any sequence of turns only permutes the stickers. */
  lemma {:induction false} TurnsKeepStickers(g: seq<int>, fs: seq<int>)
    requires IsGrid(g) && AllFaces(fs)
    ensures multiset(Turns(g, fs)) == multiset(g)
    decreases |fs|
  {
    if fs != [] {
      TurnsKeepStickers(g, fs[..|fs| - 1]);
      TurnKeepsStickers(Turns(g, fs[..|fs| - 1]), fs[|fs| - 1]);
    }
  }

  /** No sequence of turns moves a centre sticker. */
  lemma {:induction false} TurnsFixCenters(g: seq<int>, fs: seq<int>)
    requires IsGrid(g) && AllFaces(fs)
    ensures forall c :: IsFace(c) ==> Turns(g, fs)[Idx(c, Center)] == g[Idx(c, Center)]
    decreases |fs|
  {
    if fs != [] {
      TurnsFixCenters(g, fs[..|fs| - 1]);
      var h := Turns(g, fs[..|fs| - 1]);
      assert Turns(g, fs) == Turn(h, fs[|fs| - 1]);
    }
  }

  /** `n` stickers of colour `c`. */
  function Uniform(c: int, n: nat): (s: seq<int>)
    ensures |s| == n && forall k :: 0 <= k < n ==> s[k] == c
  {
    seq(n, _ => c)
  }

  lemma {:induction false} UniformCount(c: int, n: nat, x: int)
    ensures multiset(Uniform(c, n))[x] == if x == c then n else 0
  {
    if n > 0 {
      assert Uniform(c, n) == Uniform(c, n - 1) + [c];
      UniformCount(c, n - 1, x);
    }
  }

  /** The solved cube holds nine stickers of each colour and nothing else. */
  lemma SolvedColorCounts()
    ensures forall x :: multiset(Solved())[x] == if IsColor(x) then FaceSize else 0
  {
    var blocks := Uniform(0, 9) + Uniform(1, 9) + Uniform(2, 9) + Uniform(3, 9) + Uniform(4, 9) + Uniform(5, 9);
    assert Solved() == blocks;
    forall x ensures multiset(Solved())[x] == if IsColor(x) then FaceSize else 0 {
      UniformCount(0, 9, x); UniformCount(1, 9, x); UniformCount(2, 9, x);
      UniformCount(3, 9, x); UniformCount(4, 9, x); UniformCount(5, 9, x);
    }
  }

  /** After any sequence of turns from the solved cube, each colour still occurs exactly nine times. */
  lemma TurnsFromSolvedColorCounts(fs: seq<int>)
    requires AllFaces(fs)
    ensures forall x :: IsColor(x) ==> multiset(Turns(Solved(), fs))[x] == FaceSize
  {
    TurnsKeepStickers(Solved(), fs);
    SolvedColorCounts();
  }

  // ---------------------------------------------------------------------
  // Scramble: fifty swaps of two random stickers.
  // ---------------------------------------------------------------------

  const ScrambleSwaps := 50

  /** The four `rand()` results one scramble iteration draws, in call order. */
  datatype Draw = Draw(face1: nat, face2: nat, pos1: nat, pos2: nat)

  /** The two cells one iteration swaps, after reducing the draws modulo 6 and 9. */
  function FirstCell(d: Draw): (i: int)
    ensures IsCell(i)
  {
    Idx(d.face1 % FaceCount, d.pos1 % FaceSize)
  }

  function SecondCell(d: Draw): (i: int)
    ensures IsCell(i)
  {
    Idx(d.face2 % FaceCount, d.pos2 % FaceSize)
  }

  /**
   The grid after the swaps the draws `ds` name, first to last. Swapping
   keeps the multiset of stickers, so a scramble conserves every colour's
   count; it does not keep centres in place.
   */
  function Scrambled(g: seq<int>, ds: seq<Draw>): (h: seq<int>)
    requires IsGrid(g)
    ensures IsGrid(h)
    ensures multiset(h) == multiset(g)
    decreases |ds|
  {
    if ds == [] then g
    else
      var d := ds[|ds| - 1];
      Swap(Scrambled(g, ds[..|ds| - 1]), FirstCell(d), SecondCell(d))
  }

  /** Scrambling with one more draw performs that draw's swap last. */
  lemma ScrambledStep(g: seq<int>, ds: seq<Draw>, i: int)
    requires IsGrid(g) && 0 <= i < |ds|
    ensures Scrambled(g, ds[..i + 1]) == Swap(Scrambled(g, ds[..i]), FirstCell(ds[i]), SecondCell(ds[i]))
  {
    assert ds[..i + 1][..i] == ds[..i];
  }

  /** A scramble keeps a coloured grid coloured. */
  lemma ScrambledKeepsColors(g: seq<int>, ds: seq<Draw>)
    requires HasColors(g)
    ensures HasColors(Scrambled(g, ds))
  {
    SameStickersKeepColors(g, Scrambled(g, ds));
  }

  /** One iteration that swaps the Front centre with a Back corner moves a centre. */
  lemma ScrambleCanMoveCenters()
    ensures Scrambled(Solved(), [Draw(Front, Back, Center, 0)])[Idx(Front, Center)] == Back
    ensures Solved()[Idx(Front, Center)] == Front
  {
    var d := Draw(Front, Back, Center, 0);
    assert [d][..0] == [];
    assert FirstCell(d) == Idx(Front, Center) by { assert Front % FaceCount == Front && Center % FaceSize == Center; }
    assert SecondCell(d) == Idx(Back, 0) by { assert Back % FaceCount == Back && 0 % FaceSize == 0; }
    assert Scrambled(Solved(), [d]) == Swap(Solved(), Idx(Front, Center), Idx(Back, 0));
  }
}
