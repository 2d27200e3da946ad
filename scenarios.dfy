/** Concrete meshes: two triangles sharing the edge A-C inside the
    quadrilateral A, B, C, D, and what the operations do on them. */
module Scenarios {
  import opened Wrappers
  import opened Kernel
  import opened Connectivity
  import opened Rotation
  import opened EdgeFlip

  /** Nodes A = 0, B = 1, C = 2, D = 3. Face 0 is A -> C -> D (halfedges
      0, 1, 2), face 1 is C -> A -> B (halfedges 3, 4, 5); halfedges 6..9
      run around the outside, D -> C -> B -> A -> D. Edge 0 is the shared
      diagonal (0, 3); edges 1..4 are the four sides. */
  function TwoTriangles(a: Point, b: Point, c: Point, d: Point): (m: Mesh)
    ensures |m.next| == 10 && |m.he1| == 5 && |m.faceHe| == 2 && |m.nodeHe| == 4
  {
    Mesh(
      [1, 2, 0, 4, 5, 3, 9, 6, 7, 8],
      [2, 0, 1, 5, 3, 4, 7, 8, 9, 6],
      [3, 6, 7, 0, 8, 9, 1, 2, 4, 5],
      [0, 2, 3, 2, 0, 1, 3, 0, 1, 2],
      [Some(0), Some(0), Some(0), Some(1), Some(1), Some(1), None, None, None, None],
      [0, 1, 2, 4, 5],
      [3, 6, 7, 8, 9],
      [0, 3],
      [Some(0), Some(5), Some(1), Some(2)],
      [a, b, c, d])
  }

  /** Every handle of the two-triangle mesh is in range. */
  lemma TwoTrianglesIndexed(a: Point, b: Point, c: Point, d: Point)
    ensures Indexed(TwoTriangles(a, b, c, d))
  {
    var m := TwoTriangles(a, b, c, d);
    assert AllBelow(m.next, 10) && AllBelow(m.prev, 10) && AllBelow(m.pair, 10);
  }

  /** pair swaps the two halfedges of each edge and nothing else. */
  lemma TwoTrianglesPairs(a: Point, b: Point, c: Point, d: Point)
    requires Indexed(TwoTriangles(a, b, c, d))
    ensures PairInvolution(TwoTriangles(a, b, c, d)) && EdgesArePairs(TwoTriangles(a, b, c, d))
  {
    var m := TwoTriangles(a, b, c, d);
    forall h | 0 <= h < |m.next| ensures m.pair[h] != h && m.pair[m.pair[h]] == h {
      if h == 0 {} else if h == 1 {} else if h == 2 {} else if h == 3 {} else if h == 4 {}
      else if h == 5 {} else if h == 6 {} else if h == 7 {} else if h == 8 {} else {}
    }
    forall e | 0 <= e < |m.he1| ensures m.pair[m.he1[e]] == m.he2[e] {
      if e == 0 {} else if e == 1 {} else if e == 2 {} else if e == 3 {} else {}
    }
  }

  /** prev undoes next on the two faces and on the outer loop. */
  lemma TwoTrianglesNextPrev(a: Point, b: Point, c: Point, d: Point)
    requires Indexed(TwoTriangles(a, b, c, d))
    ensures NextPrevInverse(TwoTriangles(a, b, c, d))
  {
    var m := TwoTriangles(a, b, c, d);
    forall h | 0 <= h < |m.next| ensures m.prev[m.next[h]] == h && m.next[m.prev[h]] == h {
      if h == 0 {} else if h == 1 {} else if h == 2 {} else if h == 3 {} else if h == 4 {}
      else if h == 5 {} else if h == 6 {} else if h == 7 {} else if h == 8 {} else {}
    }
  }

  /** Origins agree with pairing and with the node anchors. */
  lemma TwoTrianglesOrigins(a: Point, b: Point, c: Point, d: Point)
    requires Indexed(TwoTriangles(a, b, c, d))
    ensures PairStartsAtDestination(TwoTriangles(a, b, c, d)) && NodeAnchors(TwoTriangles(a, b, c, d))
  {
    var m := TwoTriangles(a, b, c, d);
    forall h | 0 <= h < |m.next| ensures m.origin[m.pair[h]] == m.origin[m.next[h]] {
      if h == 0 {} else if h == 1 {} else if h == 2 {} else if h == 3 {} else if h == 4 {}
      else if h == 5 {} else if h == 6 {} else if h == 7 {} else if h == 8 {} else {}
    }
    forall n | 0 <= n < |m.nodeHe| && m.nodeHe[n].Some? ensures m.origin[m.nodeHe[n].value] == n {
      if n == 0 {} else if n == 1 {} else if n == 2 {} else {}
    }
  }

  /** Both faces are 3-cycles through their anchors. */
  lemma TwoTrianglesFaces(a: Point, b: Point, c: Point, d: Point)
    requires Indexed(TwoTriangles(a, b, c, d))
    ensures FacesAreThreeCycles(TwoTriangles(a, b, c, d)) && FaceAnchors(TwoTriangles(a, b, c, d))
  {
    var m := TwoTriangles(a, b, c, d);
    forall h | 0 <= h < |m.next| && m.face[h].Some?
      ensures m.next[h] != h && m.next[m.next[m.next[h]]] == h && m.face[m.next[h]] == m.face[h]
      ensures var a := m.faceHe[m.face[h].value]; h == a || h == m.next[a] || h == m.next[m.next[a]]
    {
      if h == 0 {} else if h == 1 {} else if h == 2 {} else if h == 3 {} else if h == 4 {} else {}
    }
    assert m.face[m.faceHe[0]] == Some(0) && m.face[m.faceHe[1]] == Some(1);
  }

  /** The two-triangle mesh satisfies every connectivity invariant,
      wherever its nodes are placed. */
  lemma TwoTrianglesValid(a: Point, b: Point, c: Point, d: Point)
    ensures Valid(TwoTriangles(a, b, c, d))
  {
    TwoTrianglesIndexed(a, b, c, d);
    TwoTrianglesPairs(a, b, c, d);
    TwoTrianglesNextPrev(a, b, c, d);
    TwoTrianglesOrigins(a, b, c, d);
    TwoTrianglesFaces(a, b, c, d);
  }

  /** The diagonal is interior, every side is on the boundary. */
  lemma OnlyTheDiagonalIsInterior(a: Point, b: Point, c: Point, d: Point)
    ensures Indexed(TwoTriangles(a, b, c, d))
    ensures forall e :: 0 <= e < 5 ==> (EdgeIsBoundary(TwoTriangles(a, b, c, d), e) <==> e != 0)
  {
    TwoTrianglesIndexed(a, b, c, d);
    var m := TwoTriangles(a, b, c, d);
    forall e | 0 <= e < 5 ensures EdgeIsBoundary(m, e) <==> e != 0 {
      if e == 0 {} else if e == 1 {} else if e == 2 {} else if e == 3 {} else {}
    }
  }

  /** Node A has the three outgoing halfedges 0, 4 and 7, met in that
      order by the rotation; the third is the first without a face. */
  lemma CornerRotation(a: Point, b: Point, c: Point, d: Point)
    ensures Indexed(TwoTriangles(a, b, c, d))
    ensures var m := TwoTriangles(a, b, c, d);
      && IsRotationPeriod(m, 0, 3)
      && RotIter(m, 0, 1) == 4 && RotIter(m, 0, 2) == 7
      && m.face[0].Some? && m.face[4].Some? && m.face[7].None?
  {
    TwoTrianglesIndexed(a, b, c, d);
    var m := TwoTriangles(a, b, c, d);
    assert Rot(m, 0) == 4 && Rot(m, 4) == 7 && Rot(m, 7) == 0;
    assert RotIter(m, 0, 1) == 4;
    assert RotIter(m, 0, 2) == 7;
    assert RotIter(m, 0, 3) == 0;
  }

  /** The flip of the diagonal reads the quadrilateral h1 = 0, h2 = 3,
      h3 = 1, h4 = 2, h5 = 4, h6 = 5, f1 = 0, f2 = 1, n1 = A, n2 = C,
      n3 = B, n4 = D. */
  lemma TwoTrianglesQuad(a: Point, b: Point, c: Point, d: Point)
    ensures Indexed(TwoTriangles(a, b, c, d))
    ensures !EdgeIsBoundary(TwoTriangles(a, b, c, d), 0)
    ensures QuadOf(TwoTriangles(a, b, c, d), 0) == Quad(0, 3, 1, 2, 4, 5, 0, 1, 0, 2, 1, 3)
  {
    TwoTrianglesIndexed(a, b, c, d);
  }

  /** On the two-triangle mesh the guard of the diagonal asks for B
      strictly right of A -> C and D strictly left of it, and the four-way
      check for the corners A, B, C, D all turning left. */
  lemma TwoTrianglesChecks(a: Point, b: Point, c: Point, d: Point)
    ensures Indexed(TwoTriangles(a, b, c, d))
    ensures IsDiagonalOfConvexQuadrilateral(TwoTriangles(a, b, c, d), 0) <==>
      Orient2d(a, c, b) < 0.0 && Orient2d(a, c, d) > 0.0
    ensures IsConvexQuadrilateral(TwoTriangles(a, b, c, d), 0) <==>
      Orient2d(a, b, c) > 0.0 && Orient2d(b, c, d) > 0.0 && Orient2d(c, d, a) > 0.0 && Orient2d(d, a, b) > 0.0
  {
    TwoTrianglesIndexed(a, b, c, d);
    var m := TwoTriangles(a, b, c, d);
    TwoTrianglesQuad(a, b, c, d);
    assert P1(m, 0) == a && P2(m, 0) == b && P3(m, 0) == c && P4(m, 0) == d;
  }

  /** Both faces wind counter-clockwise when the triangles (A, C, D) and
      (C, A, B) do. */
  lemma TwoTrianglesCounterClockwise(a: Point, b: Point, c: Point, d: Point)
    requires Orient2d(a, c, d) > 0.0 && Orient2d(c, a, b) > 0.0
    ensures Indexed(TwoTriangles(a, b, c, d))
    ensures CounterClockwise(TwoTriangles(a, b, c, d))
  {
    TwoTrianglesIndexed(a, b, c, d);
    var m := TwoTriangles(a, b, c, d);
    Orient2dCyclic(a, c, d);
    Orient2dCyclic(c, a, b);
    forall h | 0 <= h < |m.next| && m.face[h].Some?
      ensures Orient2d(m.position[m.origin[h]], m.position[m.origin[m.next[h]]],
                       m.position[m.origin[m.next[m.next[h]]]]) > 0.0
    {
      if h == 0 {} else if h == 1 {} else if h == 2 {} else if h == 3 {} else if h == 4 {} else {}
    }
  }

  /** The unit square split along A-C. */
  function Square(): Mesh
  {
    TwoTriangles(Point(0.0, 0.0), Point(1.0, 0.0), Point(1.0, 1.0), Point(0.0, 1.0))
  }

  /** The four corners of the square turn left. */
  lemma SquareCornersTurnLeft()
    ensures var a, b, c, d := Point(0.0, 0.0), Point(1.0, 0.0), Point(1.0, 1.0), Point(0.0, 1.0);
      Orient2d(a, b, c) > 0.0 && Orient2d(b, c, d) > 0.0 && Orient2d(c, d, a) > 0.0 && Orient2d(d, a, b) > 0.0
  {
  }

  /** Both triangles beside the square's diagonal A-C turn left. */
  lemma SquareTrianglesTurnLeft()
    ensures var a, b, c, d := Point(0.0, 0.0), Point(1.0, 0.0), Point(1.0, 1.0), Point(0.0, 1.0);
      Orient2d(a, c, d) > 0.0 && Orient2d(c, a, b) > 0.0
  {
  }

  /** The square is a valid counter-clockwise mesh whose diagonal passes
      the four-way check, so its flip keeps every face counter-clockwise. */
  lemma SquareIsConvex()
    ensures Valid(Square()) && CounterClockwise(Square()) && IsConvexQuadrilateral(Square(), 0)
    ensures IsDiagonalOfConvexQuadrilateral(Square(), 0)
  {
    var a, b, c, d := Point(0.0, 0.0), Point(1.0, 0.0), Point(1.0, 1.0), Point(0.0, 1.0);
    SquareCornersTurnLeft();
    SquareTrianglesTurnLeft();
    TwoTrianglesValid(a, b, c, d);
    TwoTrianglesCounterClockwise(a, b, c, d);
    TwoTrianglesChecks(a, b, c, d);
    Orient2dSwapLast(a, b, c);
    Orient2dCyclic(a, c, d);
  }

  /** Flipping the square's diagonal A-C joins B and D and keeps every
      face counter-clockwise. */
  lemma SquareFlips()
    ensures Indexed(Square())
    ensures EdgeVertices(Flipped(Square(), 0), 0) == (Point(1.0, 0.0), Point(0.0, 1.0))
    ensures CounterClockwise(Flipped(Square(), 0))
  {
    TwoTrianglesIndexed(Point(0.0, 0.0), Point(1.0, 0.0), Point(1.0, 1.0), Point(0.0, 1.0));
    SquareIsConvex();
    TwoTrianglesQuad(Point(0.0, 0.0), Point(1.0, 0.0), Point(1.0, 1.0), Point(0.0, 1.0));
    FlipTurnsDiagonal(Square(), 0);
    FlipKeepsCounterClockwise(Square(), 0);
  }

  /** A quadrilateral whose corner C is reflex: A = (0, 0), B = (2, -1),
      C = (1, 0), D = (2, 1). */
  function Dart(): Mesh
  {
    TwoTriangles(Point(0.0, 0.0), Point(2.0, -1.0), Point(1.0, 0.0), Point(2.0, 1.0))
  }

  /** In the dart, B lies right of A -> C and D left of it. */
  lemma DartSides()
    ensures var a, b, c, d := Point(0.0, 0.0), Point(2.0, -1.0), Point(1.0, 0.0), Point(2.0, 1.0);
      Orient2d(a, c, b) < 0.0 && Orient2d(a, c, d) > 0.0
  {
  }

  /** In the dart, the triangle (C, A, B) turns left and the corner C of
      the quadrilateral turns right. */
  lemma DartTurns()
    ensures var a, b, c, d := Point(0.0, 0.0), Point(2.0, -1.0), Point(1.0, 0.0), Point(2.0, 1.0);
      Orient2d(c, a, b) > 0.0 && Orient2d(b, c, d) < 0.0
  {
  }

  /** The flip guard as written accepts the diagonal A-C of the dart:
      the mesh is valid and counter-clockwise and both triangles beside
      the diagonal turn left, yet the corner C is reflex, so the four-way
      check fails and by FlipKeepsCounterClockwiseIffConvex the flip folds
      a triangle over. */
  lemma DartPassesGuard()
    ensures Valid(Dart()) && CounterClockwise(Dart())
    ensures IsDiagonalOfConvexQuadrilateral(Dart(), 0)
    ensures !IsConvexQuadrilateral(Dart(), 0)
  {
    var a, b, c, d := Point(0.0, 0.0), Point(2.0, -1.0), Point(1.0, 0.0), Point(2.0, 1.0);
    DartSides();
    DartTurns();
    TwoTrianglesValid(a, b, c, d);
    TwoTrianglesCounterClockwise(a, b, c, d);
    TwoTrianglesChecks(a, b, c, d);
  }

  /** Flipping the dart's diagonal breaks the counter-clockwise winding. */
  lemma DartFlipFolds()
    ensures Indexed(Dart())
    ensures !CounterClockwise(Flipped(Dart(), 0))
  {
    TwoTrianglesIndexed(Point(0.0, 0.0), Point(2.0, -1.0), Point(1.0, 0.0), Point(2.0, 1.0));
    DartPassesGuard();
    FlipKeepsCounterClockwiseIffConvex(Dart(), 0);
  }
}
