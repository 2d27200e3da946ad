/** The edge flip as a function on the arena, and what it preserves.
    The flip turns the diagonal n1-n2 of the quadrilateral formed by the
    two triangles beside an edge into the diagonal n3-n4, by relinking six
    halfedges, two faces and (when needed) two node anchors. */
module EdgeFlip {
  import opened Wrappers
  import opened Kernel
  import opened Connectivity

  /** The entities the flip reads before it writes anything: the edge's
      halfedges h1, h2, their faces f1, f2 and origins n1, n2, the
      halfedges after and before each (h3, h4 beside h1; h5, h6 beside
      h2), and the off-diagonal nodes n3 = origin(h6), n4 = origin(h4). */
  datatype Quad = Quad(
    h1: nat, h2: nat, h3: nat, h4: nat, h5: nat, h6: nat,
    f1: nat, f2: nat,
    n1: nat, n2: nat, n3: nat, n4: nat)

  function QuadOf(m: Mesh, e: nat): (q: Quad)
    requires Indexed(m) && e < |m.he1| && !EdgeIsBoundary(m, e)
    ensures QuadInRange(m, q)
  {
    var h1 := m.he1[e];
    var h2 := m.he2[e];
    var h4 := m.prev[h1];
    var h6 := m.prev[h2];
    Quad(h1, h2, m.next[h1], h4, m.next[h2], h6,
         m.face[h1].value, m.face[h2].value,
         m.origin[h1], m.origin[h2], m.origin[h6], m.origin[h4])
  }

  /** h is one of the six halfedges of the quadrilateral. */
  predicate InQuad(q: Quad, h: nat)
  {
    h == q.h1 || h == q.h2 || h == q.h3 || h == q.h4 || h == q.h5 || h == q.h6
  }

  /** The six halfedges, the two faces and the four nodes are distinct. */
  predicate Distinct(q: Quad)
  {
    && q.h1 != q.h2 && q.h1 != q.h3 && q.h1 != q.h4 && q.h1 != q.h5 && q.h1 != q.h6
    && q.h2 != q.h3 && q.h2 != q.h4 && q.h2 != q.h5 && q.h2 != q.h6
    && q.h3 != q.h4 && q.h3 != q.h5 && q.h3 != q.h6
    && q.h4 != q.h5 && q.h4 != q.h6
    && q.h5 != q.h6
    && q.f1 != q.f2
    && q.n1 != q.n2 && q.n1 != q.n3 && q.n1 != q.n4
    && q.n2 != q.n3 && q.n2 != q.n4 && q.n3 != q.n4
  }

  /** The four handles of q refer to existing entities of m. */
  predicate QuadInRange(m: Mesh, q: Quad)
  {
    && q.h1 < |m.next| && q.h2 < |m.next| && q.h3 < |m.next|
    && q.h4 < |m.next| && q.h5 < |m.next| && q.h6 < |m.next|
    && q.f1 < |m.faceHe| && q.f2 < |m.faceHe|
    && q.n1 < |m.nodeHe| && q.n2 < |m.nodeHe| && q.n3 < |m.nodeHe| && q.n4 < |m.nodeHe|
  }

  /** Writing a handle below the bound keeps every handle below it. */
  lemma AllBelowUpdate(s: seq<nat>, i: nat, v: nat, bound: nat)
    requires AllBelow(s, bound) && i < |s| && v < bound
    ensures AllBelow(s[i := v], bound)
  {
  }

  lemma AllBelowUpdate3(s: seq<nat>, a: nat, va: nat, b: nat, vb: nat, c: nat, vc: nat, bound: nat)
    requires AllBelow(s, bound) && a < |s| && b < |s| && c < |s| && va < bound && vb < bound && vc < bound
    ensures AllBelow(s[a := va][b := vb][c := vc], bound)
  {
    AllBelowUpdate(s, a, va, bound);
    AllBelowUpdate(s[a := va], b, vb, bound);
    AllBelowUpdate(s[a := va][b := vb], c, vc, bound);
  }

  lemma SomeBelowUpdate(s: seq<Option<nat>>, i: nat, v: nat, bound: nat)
    requires SomeBelow(s, bound) && i < |s| && v < bound
    ensures SomeBelow(s[i := Some(v)], bound)
  {
  }

  lemma SomeBelowUpdate3(s: seq<Option<nat>>, a: nat, b: nat, c: nat, v: nat, bound: nat)
    requires SomeBelow(s, bound) && a < |s| && b < |s| && c < |s| && v < bound
    ensures SomeBelow(s[a := Some(v)][b := Some(v)][c := Some(v)], bound)
  {
    SomeBelowUpdate(s, a, v, bound);
    SomeBelowUpdate(s[a := Some(v)], b, v, bound);
    SomeBelowUpdate(s[a := Some(v)][b := Some(v)], c, v, bound);
  }

  /** The writes of the flip on the quadrilateral q: the cycles
      h1 -> h4 -> h5 on f1 and h2 -> h6 -> h3 on f2, h1 from n3 and h2 from
      n4, f1 anchored at h1 and f2 at h2, and n1 (n2) re-anchored at h5 (h3)
      when it was anchored at h1 (h2). */
  function Rewire(m: Mesh, q: Quad): (r: Mesh)
    requires Indexed(m) && QuadInRange(m, q)
    ensures Indexed(r)
    ensures |r.next| == |m.next| && |r.he1| == |m.he1| && |r.faceHe| == |m.faceHe| && |r.nodeHe| == |m.nodeHe|
    ensures r.pair == m.pair && r.he1 == m.he1 && r.he2 == m.he2 && r.position == m.position
  {
    var anchors1 := if m.nodeHe[q.n1] == Some(q.h1) then m.nodeHe[q.n1 := Some(q.h5)] else m.nodeHe;
    var anchors2 := if anchors1[q.n2] == Some(q.h2) then anchors1[q.n2 := Some(q.h3)] else anchors1;
    var hs := |m.next|;
    var next1 := m.next[q.h1 := q.h4][q.h4 := q.h5][q.h5 := q.h1];
    var prev1 := m.prev[q.h1 := q.h5][q.h5 := q.h4][q.h4 := q.h1];
    var face1 := m.face[q.h1 := Some(q.f1)][q.h4 := Some(q.f1)][q.h5 := Some(q.f1)];
    AllBelowUpdate3(m.next, q.h1, q.h4, q.h4, q.h5, q.h5, q.h1, hs);
    AllBelowUpdate3(next1, q.h2, q.h6, q.h6, q.h3, q.h3, q.h2, hs);
    AllBelowUpdate3(m.prev, q.h1, q.h5, q.h5, q.h4, q.h4, q.h1, hs);
    AllBelowUpdate3(prev1, q.h2, q.h3, q.h3, q.h6, q.h6, q.h2, hs);
    SomeBelowUpdate3(m.face, q.h1, q.h4, q.h5, q.f1, |m.faceHe|);
    SomeBelowUpdate3(face1, q.h2, q.h6, q.h3, q.f2, |m.faceHe|);
    AllBelowUpdate(m.origin, q.h1, q.n3, |m.nodeHe|);
    AllBelowUpdate(m.origin[q.h1 := q.n3], q.h2, q.n4, |m.nodeHe|);
    AllBelowUpdate(m.faceHe, q.f1, q.h1, hs);
    AllBelowUpdate(m.faceHe[q.f1 := q.h1], q.f2, q.h2, hs);
    SomeBelowUpdate(m.nodeHe, q.n1, q.h5, hs);
    SomeBelowUpdate(anchors1, q.n2, q.h3, hs);
    m.(faceHe := m.faceHe[q.f1 := q.h1][q.f2 := q.h2],
       face := face1[q.h2 := Some(q.f2)][q.h6 := Some(q.f2)][q.h3 := Some(q.f2)],
       nodeHe := anchors2,
       origin := m.origin[q.h1 := q.n3][q.h2 := q.n4],
       next := next1[q.h2 := q.h6][q.h6 := q.h3][q.h3 := q.h2],
       prev := prev1[q.h2 := q.h3][q.h3 := q.h6][q.h6 := q.h2])
  }

  /** The arena after the flip of edge e. */
  function Flipped(m: Mesh, e: nat): (r: Mesh)
    requires Indexed(m) && e < |m.he1| && !EdgeIsBoundary(m, e)
    ensures Indexed(r)
    ensures |r.next| == |m.next| && |r.he1| == |m.he1| && |r.faceHe| == |m.faceHe| && |r.nodeHe| == |m.nodeHe|
    ensures r.pair == m.pair && r.he1 == m.he1 && r.he2 == m.he2 && r.position == m.position
  {
    Rewire(m, QuadOf(m, e))
  }

  /** The positions p1..p4 the guard compares: p1 = n1, p2 = n3, p3 = n2, p4 = n4. */
  function P1(m: Mesh, e: nat): Point
    requires Indexed(m) && e < |m.he1| && !EdgeIsBoundary(m, e)
  { m.position[QuadOf(m, e).n1] }

  function P2(m: Mesh, e: nat): Point
    requires Indexed(m) && e < |m.he1| && !EdgeIsBoundary(m, e)
  { m.position[QuadOf(m, e).n3] }

  function P3(m: Mesh, e: nat): Point
    requires Indexed(m) && e < |m.he1| && !EdgeIsBoundary(m, e)
  { m.position[QuadOf(m, e).n2] }

  function P4(m: Mesh, e: nat): Point
    requires Indexed(m) && e < |m.he1| && !EdgeIsBoundary(m, e)
  { m.position[QuadOf(m, e).n4] }


  // ---------------------------------------------------------------------
  // The quadrilateral before the flip

  /** q sits in m as the two triangles h1 -> h3 -> h4 on f1 and
      h2 -> h5 -> h6 on f2, glued along the pair h1, h2; n1 and n2 are the
      diagonal's ends, n4 the third corner of f1 and n3 that of f2; the
      six halfedges, the two faces and the four nodes are distinct. */
  ghost predicate Shaped(m: Mesh, q: Quad)
    requires Indexed(m) && QuadInRange(m, q)
  {
    && m.pair[q.h1] == q.h2 && m.pair[q.h2] == q.h1
    && m.next[q.h1] == q.h3 && m.next[q.h3] == q.h4 && m.next[q.h4] == q.h1
    && m.next[q.h2] == q.h5 && m.next[q.h5] == q.h6 && m.next[q.h6] == q.h2
    && m.prev[q.h1] == q.h4 && m.prev[q.h3] == q.h1 && m.prev[q.h4] == q.h3
    && m.prev[q.h2] == q.h6 && m.prev[q.h5] == q.h2 && m.prev[q.h6] == q.h5
    && m.face[q.h1] == m.face[q.h3] == m.face[q.h4] == Some(q.f1)
    && m.face[q.h2] == m.face[q.h5] == m.face[q.h6] == Some(q.f2)
    && m.origin[q.h1] == q.n1 && m.origin[q.h3] == q.n2 && m.origin[q.h4] == q.n4
    && m.origin[q.h2] == q.n2 && m.origin[q.h5] == q.n1 && m.origin[q.h6] == q.n3
    && Distinct(q)
  }

  /** In a valid mesh, an edge that passes the flip guard is the diagonal
      of such a quadrilateral. */
  lemma QuadShape(m: Mesh, e: nat)
    requires Valid(m) && e < |m.he1| && IsDiagonalOfConvexQuadrilateral(m, e)
    ensures Shaped(m, QuadOf(m, e))
  {
    var q := QuadOf(m, e);
    // the two triangles
    assert m.next[m.next[m.next[q.h1]]] == q.h1;
    assert m.prev[q.h1] == m.prev[m.next[m.next[m.next[q.h1]]]] == m.next[q.h3];
    assert m.next[m.next[m.next[q.h2]]] == q.h2;
    assert m.prev[q.h2] == m.prev[m.next[m.next[m.next[q.h2]]]] == m.next[q.h5];
    assert m.face[q.h3] == m.face[q.h1];
    assert m.face[q.h4] == m.face[q.h3];
    assert m.face[q.h5] == m.face[q.h2];
    assert m.face[q.h6] == m.face[q.h5];
    assert m.next[q.h3] != q.h3;
    assert m.next[q.h5] != q.h5;
    // origins
    assert m.origin[q.h3] == m.origin[m.pair[q.h1]];
    assert m.origin[q.h5] == m.origin[m.pair[q.h2]];
    // the geometry keeps h2 off the triangle of h1
    var p1, p2, p3, p4 := P1(m, e), P2(m, e), P3(m, e), P4(m, e);
    Orient2dRepeated(p1, p3);
    Orient2dRepeated(p1, p2);
    assert q.h2 != q.h3;
    assert q.h2 != q.h4;
    // faces: a face holds one cycle, and the two cycles are disjoint
    var a := m.faceHe[q.f2];
    assert q.h2 == a || q.h2 == m.next[a] || q.h2 == m.next[m.next[a]];
    assert q.f1 != q.f2;
  }

  /** In a mesh whose faces are anchored 3-cycles, the halfedges of f1 and
      f2 are the six halfedges of the quadrilateral and no others. */
  lemma OutsideFaces(m: Mesh, q: Quad)
    requires Indexed(m) && QuadInRange(m, q) && FacesAreThreeCycles(m) && FaceAnchors(m) && Shaped(m, q)
    ensures forall h :: 0 <= h < |m.next| && m.face[h].Some? && !InQuad(q, h) ==>
      m.face[h].value != q.f1 && m.face[h].value != q.f2
  {
    forall h | 0 <= h < |m.next| && m.face[h].Some? && !InQuad(q, h)
      ensures m.face[h].value != q.f1 && m.face[h].value != q.f2
    {
      var a1, a2 := m.faceHe[q.f1], m.faceHe[q.f2];
      assert q.h1 == a1 || q.h1 == m.next[a1] || q.h1 == m.next[m.next[a1]];
      assert q.h2 == a2 || q.h2 == m.next[a2] || q.h2 == m.next[m.next[a2]];
    }
  }

  // ---------------------------------------------------------------------
  // The writes, read back

  /** The next links Rewire writes, and no others. */
  lemma RewireNext(m: Mesh, q: Quad)
    requires Indexed(m) && QuadInRange(m, q) && Distinct(q)
    ensures var r := Rewire(m, q);
      && r.next[q.h1] == q.h4 && r.next[q.h4] == q.h5 && r.next[q.h5] == q.h1
      && r.next[q.h2] == q.h6 && r.next[q.h6] == q.h3 && r.next[q.h3] == q.h2
    ensures var r := Rewire(m, q);
      forall h :: 0 <= h < |m.next| && !InQuad(q, h) ==> r.next[h] == m.next[h]
  {
  }

  /** The prev links Rewire writes, and no others. */
  lemma RewirePrev(m: Mesh, q: Quad)
    requires Indexed(m) && QuadInRange(m, q) && Distinct(q)
    ensures var r := Rewire(m, q);
      && r.prev[q.h1] == q.h5 && r.prev[q.h5] == q.h4 && r.prev[q.h4] == q.h1
      && r.prev[q.h2] == q.h3 && r.prev[q.h3] == q.h6 && r.prev[q.h6] == q.h2
    ensures var r := Rewire(m, q);
      forall h :: 0 <= h < |m.next| && !InQuad(q, h) ==> r.prev[h] == m.prev[h]
  {
  }

  /** The faces and face anchors Rewire writes, and no others. */
  lemma RewireFaces(m: Mesh, q: Quad)
    requires Indexed(m) && QuadInRange(m, q) && Distinct(q)
    ensures var r := Rewire(m, q);
      && r.face[q.h1] == r.face[q.h4] == r.face[q.h5] == Some(q.f1)
      && r.face[q.h2] == r.face[q.h6] == r.face[q.h3] == Some(q.f2)
      && r.faceHe[q.f1] == q.h1 && r.faceHe[q.f2] == q.h2
    ensures var r := Rewire(m, q);
      forall h :: 0 <= h < |m.next| && !InQuad(q, h) ==> r.face[h] == m.face[h]
    ensures var r := Rewire(m, q);
      forall f :: 0 <= f < |m.faceHe| && f != q.f1 && f != q.f2 ==> r.faceHe[f] == m.faceHe[f]
  {
  }

  /** The origins Rewire writes, and no others. */
  lemma RewireOrigins(m: Mesh, q: Quad)
    requires Indexed(m) && QuadInRange(m, q) && Distinct(q)
    ensures var r := Rewire(m, q);
      r.origin[q.h1] == q.n3 && r.origin[q.h2] == q.n4
    ensures var r := Rewire(m, q);
      forall h :: 0 <= h < |m.next| && h != q.h1 && h != q.h2 ==> r.origin[h] == m.origin[h]
  {
  }

  /** The node anchors Rewire writes, and no others. */
  lemma RewireNodeAnchors(m: Mesh, q: Quad)
    requires Indexed(m) && QuadInRange(m, q) && Distinct(q)
    ensures var r := Rewire(m, q);
      && r.nodeHe[q.n1] == (if m.nodeHe[q.n1] == Some(q.h1) then Some(q.h5) else m.nodeHe[q.n1])
      && r.nodeHe[q.n2] == (if m.nodeHe[q.n2] == Some(q.h2) then Some(q.h3) else m.nodeHe[q.n2])
    ensures var r := Rewire(m, q);
      forall n :: 0 <= n < |m.nodeHe| && n != q.n1 && n != q.n2 ==> r.nodeHe[n] == m.nodeHe[n]
  {
  }

  /** The quadrilateral after the flip, named as QuadOf names it: the
      same edge and faces, the halfedges beside h1 and h2 turned one step,
      n3, n4 now the diagonal's ends and n2, n1 the off-diagonal corners. */
  function Turned(q: Quad): (t: Quad)
    ensures InQuad(t, q.h1) && InQuad(t, q.h2) && InQuad(t, q.h3)
    ensures InQuad(t, q.h4) && InQuad(t, q.h5) && InQuad(t, q.h6)
    ensures Distinct(q) ==> Distinct(t)
  {
    Quad(q.h1, q.h2, q.h4, q.h5, q.h6, q.h3, q.f1, q.f2, q.n3, q.n4, q.n2, q.n1)
  }

  /** Off the quadrilateral q, every halfedge of r has the links, face
      and origin it has in m. */
  ghost predicate SameOutside(m: Mesh, r: Mesh, q: Quad)
    requires Indexed(m) && Indexed(r) && |r.next| == |m.next|
  {
    forall h :: 0 <= h < |m.next| && !InQuad(q, h) ==>
      && r.next[h] == m.next[h] && r.prev[h] == m.prev[h]
      && r.face[h] == m.face[h] && r.origin[h] == m.origin[h]
  }

  /** r is m with the shaped quadrilateral q turned: the same six
      halfedges now form h1 -> h4 -> h5 on f1 and h2 -> h6 -> h3 on f2, with
      h1 from n3 and h2 from n4; f1 is anchored at h1 and f2 at h2; n1's
      anchor moves from h1 to h5 and n2's from h2 to h3 when it was there;
      nothing else changes, neither outside the quadrilateral nor in the
      pairing, the edges and the positions. */
  ghost predicate Turning(m: Mesh, r: Mesh, q: Quad)
  {
    && Indexed(m) && Indexed(r) && QuadInRange(m, q)
    && |r.next| == |m.next| && |r.he1| == |m.he1| && |r.faceHe| == |m.faceHe| && |r.nodeHe| == |m.nodeHe|
    && r.pair == m.pair && r.he1 == m.he1 && r.he2 == m.he2 && r.position == m.position
    && Shaped(m, q) && Shaped(r, Turned(q))
    && r.faceHe[q.f1] == q.h1 && r.faceHe[q.f2] == q.h2
    && r.nodeHe[q.n1] == (if m.nodeHe[q.n1] == Some(q.h1) then Some(q.h5) else m.nodeHe[q.n1])
    && r.nodeHe[q.n2] == (if m.nodeHe[q.n2] == Some(q.h2) then Some(q.h3) else m.nodeHe[q.n2])
    && SameOutside(m, r, q)
    && (forall f :: 0 <= f < |m.faceHe| && f != q.f1 && f != q.f2 ==> r.faceHe[f] == m.faceHe[f])
    && (forall n :: 0 <= n < |m.nodeHe| && n != q.n1 && n != q.n2 ==> r.nodeHe[n] == m.nodeHe[n])
  }

  /** Rewire turns a shaped quadrilateral. */
  lemma RewireTurns(m: Mesh, q: Quad)
    requires Indexed(m) && QuadInRange(m, q) && Shaped(m, q)
    ensures Turning(m, Rewire(m, q), q)
  {
    RewireNext(m, q);
    RewirePrev(m, q);
    RewireFaces(m, q);
    RewireOrigins(m, q);
    RewireNodeAnchors(m, q);
  }

  // ---------------------------------------------------------------------
  // The invariants a turn keeps

  /** next and prev stay mutual inverses. */
  lemma TurningKeepsNextPrevInverse(m: Mesh, r: Mesh, q: Quad)
    requires Turning(m, r, q) && NextPrevInverse(m)
    ensures NextPrevInverse(r)
  {
    forall h | 0 <= h < |r.next|
      ensures r.prev[r.next[h]] == h && r.next[r.prev[h]] == h
    {
      if !InQuad(q, h) {
        var x, y := m.next[h], m.prev[h];
        assert m.prev[x] == h && m.next[y] == h;
        assert !InQuad(q, x) && !InQuad(q, y);
      }
    }
  }

  /** The reverse of every halfedge still starts where it ends. */
  lemma TurningKeepsPairStartsAtDestination(m: Mesh, r: Mesh, q: Quad)
    requires Turning(m, r, q) && NextPrevInverse(m) && PairInvolution(m) && PairStartsAtDestination(m)
    ensures PairStartsAtDestination(r)
  {
    forall h | 0 <= h < |r.next|
      ensures r.origin[r.pair[h]] == r.origin[r.next[h]]
    {
      var p, x := m.pair[h], m.next[h];
      assert m.pair[p] == h && m.origin[p] == m.origin[x];
      if !InQuad(q, h) {
        assert m.prev[x] == h;
        assert x != q.h1 && x != q.h2;
      }
    }
  }

  /** The six halfedges of a shaped quadrilateral lie on two 3-cycles,
      each on one face. */
  lemma ShapedCycles(m: Mesh, q: Quad)
    requires Indexed(m) && QuadInRange(m, q) && Shaped(m, q)
    ensures forall h :: 0 <= h < |m.next| && InQuad(q, h) ==>
      && m.face[h].Some?
      && m.next[h] != h
      && m.next[m.next[m.next[h]]] == h
      && m.face[m.next[h]] == m.face[h]
  {
  }

  /** Faces off the quadrilateral keep their 3-cycles. */
  lemma OutsideKeepsCycles(m: Mesh, r: Mesh, q: Quad)
    requires Indexed(m) && Indexed(r) && |r.next| == |m.next| && QuadInRange(m, q)
    requires FacesAreThreeCycles(m) && FaceAnchors(m) && Shaped(m, q) && SameOutside(m, r, q)
    ensures forall h :: 0 <= h < |r.next| && r.face[h].Some? && !InQuad(q, h) ==>
      && r.next[h] != h
      && r.next[r.next[r.next[h]]] == h
      && r.face[r.next[h]] == r.face[h]
  {
    OutsideFaces(m, q);
    forall h | 0 <= h < |r.next| && r.face[h].Some? && !InQuad(q, h)
      ensures r.next[h] != h && r.next[r.next[r.next[h]]] == h && r.face[r.next[h]] == r.face[h]
    {
      var x := m.next[h];
      assert m.face[x] == m.face[h];
      assert m.face[m.next[x]] == m.face[h];
    }
  }

  /** Faces stay closed 3-cycles of next links. */
  lemma TurningKeepsFacesAreThreeCycles(m: Mesh, r: Mesh, q: Quad)
    requires Turning(m, r, q) && FacesAreThreeCycles(m) && FaceAnchors(m)
    ensures FacesAreThreeCycles(r)
  {
    ShapedCycles(r, Turned(q));
    OutsideKeepsCycles(m, r, q);
  }

  /** The anchors of the faces off the quadrilateral stay on their faces,
      and so do those faces' halfedges on the cycles through them. */
  lemma OutsideKeepsFaceAnchors(m: Mesh, r: Mesh, q: Quad)
    requires Indexed(m) && Indexed(r) && |r.next| == |m.next| && |r.faceHe| == |m.faceHe| && QuadInRange(m, q)
    requires FacesAreThreeCycles(m) && FaceAnchors(m) && Shaped(m, q) && SameOutside(m, r, q)
    requires forall f :: 0 <= f < |m.faceHe| && f != q.f1 && f != q.f2 ==> r.faceHe[f] == m.faceHe[f]
    ensures forall f :: 0 <= f < |r.faceHe| && f != q.f1 && f != q.f2 ==> r.face[r.faceHe[f]] == Some(f)
    ensures forall h :: 0 <= h < |r.next| && r.face[h].Some? && !InQuad(q, h) ==>
      var a := r.faceHe[r.face[h].value]; h == a || h == r.next[a] || h == r.next[r.next[a]]
  {
    OutsideFaces(m, q);
    forall f | 0 <= f < |r.faceHe| && f != q.f1 && f != q.f2 ensures r.face[r.faceHe[f]] == Some(f) {
      assert m.face[m.faceHe[f]] == Some(f);
    }
    forall h | 0 <= h < |r.next| && r.face[h].Some? && !InQuad(q, h)
      ensures var a := r.faceHe[r.face[h].value]; h == a || h == r.next[a] || h == r.next[r.next[a]]
    {
      var a := m.faceHe[m.face[h].value];
      assert m.face[a] == m.face[h];
      assert m.face[m.next[a]] == m.face[a];
    }
  }

  /** A shaped quadrilateral whose faces are anchored at h1 and h2 keeps
      its six halfedges on the cycles through the anchors. */
  lemma ShapedFaceAnchors(m: Mesh, q: Quad)
    requires Indexed(m) && QuadInRange(m, q) && Shaped(m, q)
    requires m.faceHe[q.f1] == q.h1 && m.faceHe[q.f2] == q.h2
    ensures m.face[m.faceHe[q.f1]] == Some(q.f1) && m.face[m.faceHe[q.f2]] == Some(q.f2)
    ensures forall h :: 0 <= h < |m.next| && InQuad(q, h) ==>
      m.face[h].Some? &&
      var a := m.faceHe[m.face[h].value]; h == a || h == m.next[a] || h == m.next[m.next[a]]
  {
  }

  /** Every face's anchor stays on it, and every halfedge of a face on the
      cycle through the anchor. */
  lemma TurningKeepsFaceAnchors(m: Mesh, r: Mesh, q: Quad)
    requires Turning(m, r, q) && FacesAreThreeCycles(m) && FaceAnchors(m)
    ensures FaceAnchors(r)
  {
    OutsideKeepsFaceAnchors(m, r, q);
    ShapedFaceAnchors(r, Turned(q));
  }

  /** Every node's anchor still starts at that node. */
  lemma TurningKeepsNodeAnchors(m: Mesh, r: Mesh, q: Quad)
    requires Turning(m, r, q) && NodeAnchors(m)
    ensures NodeAnchors(r)
  {
    forall n | 0 <= n < |r.nodeHe| && r.nodeHe[n].Some?
      ensures r.origin[r.nodeHe[n].value] == n
    {
      if m.nodeHe[n].Some? {
        assert m.origin[m.nodeHe[n].value] == n;
      }
    }
  }

  /** A turn keeps every connectivity invariant. */
  lemma TurningPreservesValid(m: Mesh, r: Mesh, q: Quad)
    requires Turning(m, r, q) && Valid(m)
    ensures Valid(r)
  {
    TurningKeepsNextPrevInverse(m, r, q);
    TurningKeepsPairStartsAtDestination(m, r, q);
    TurningKeepsFacesAreThreeCycles(m, r, q);
    TurningKeepsFaceAnchors(m, r, q);
    TurningKeepsNodeAnchors(m, r, q);
  }

  // ---------------------------------------------------------------------
  // What the flip does

  /** The flip of an edge that passes the guard turns the quadrilateral
      around it, and the edge then names the turned quadrilateral. */
  lemma FlipRewiresQuadrilateral(m: Mesh, e: nat)
    requires Valid(m) && e < |m.he1| && IsDiagonalOfConvexQuadrilateral(m, e)
    ensures Turning(m, Flipped(m, e), QuadOf(m, e))
    ensures !EdgeIsBoundary(Flipped(m, e), e) && QuadOf(Flipped(m, e), e) == Turned(QuadOf(m, e))
  {
    var q := QuadOf(m, e);
    QuadShape(m, e);
    RewireTurns(m, q);
    TurnedQuadOf(m, Flipped(m, e), q, e);
  }

  /** When r turns q around edge e, QuadOf names the turned quadrilateral. */
  lemma TurnedQuadOf(m: Mesh, r: Mesh, q: Quad, e: nat)
    requires Turning(m, r, q) && e < |m.he1| && m.he1[e] == q.h1 && m.he2[e] == q.h2
    ensures !EdgeIsBoundary(r, e) && QuadOf(r, e) == Turned(q)
  {
  }

  /** The flip keeps every connectivity invariant. */
  lemma FlipPreservesValid(m: Mesh, e: nat)
    requires Valid(m) && e < |m.he1| && IsDiagonalOfConvexQuadrilateral(m, e)
    ensures Valid(Flipped(m, e))
  {
    FlipRewiresQuadrilateral(m, e);
    TurningPreservesValid(m, Flipped(m, e), QuadOf(m, e));
  }

  /** The flip keeps the number of halfedges, edges, faces and nodes, the
      pairing, the edges' halfedges and the positions. */
  lemma FlipKeepsEntities(m: Mesh, e: nat)
    requires Valid(m) && e < |m.he1| && IsDiagonalOfConvexQuadrilateral(m, e)
    ensures var r := Flipped(m, e);
      && |r.next| == |m.next| && |r.he1| == |m.he1| && |r.faceHe| == |m.faceHe| && |r.nodeHe| == |m.nodeHe|
      && r.pair == m.pair && r.he1 == m.he1 && r.he2 == m.he2 && r.position == m.position
  {
  }

  /** After the flip the edge joins n3 and n4, and the two faces are the
      triangles (n3, n4, n1) and (n4, n3, n2). */
  lemma FlipTurnsDiagonal(m: Mesh, e: nat)
    requires Valid(m) && e < |m.he1| && IsDiagonalOfConvexQuadrilateral(m, e)
    ensures var q, r := QuadOf(m, e), Flipped(m, e);
      && Valid(r)
      && EdgeVertices(r, e) == (m.position[q.n3], m.position[q.n4])
      && FaceIsTriangle(r, q.f1) && FaceIsTriangle(r, q.f2)
      && FaceNodes(r, q.f1) == (q.n3, q.n4, q.n1)
      && FaceNodes(r, q.f2) == (q.n4, q.n3, q.n2)
  {
    FlipPreservesValid(m, e);
    FlipRewiresQuadrilateral(m, e);
  }

  /** Flipping the same edge again, when that second flip is legal, puts
      the diagonal back between n1 and n2 with its direction reversed: the
      quadrilateral is turned twice, so f1 now bounds the triangle
      (n2, n1, n3) that f2 bounded before and f2 the triangle (n1, n2, n4)
      that f1 bounded. */
  lemma FlipTwice(m: Mesh, e: nat)
    requires Valid(m) && e < |m.he1| && IsDiagonalOfConvexQuadrilateral(m, e)
    requires IsDiagonalOfConvexQuadrilateral(Flipped(m, e), e)
    ensures var q, r1 := QuadOf(m, e), Flipped(m, e);
      var r2 := Flipped(r1, e);
      && Valid(r2)
      && Turning(r1, r2, Turned(q))
      && EdgeVertices(r2, e) == (m.position[q.n2], m.position[q.n1])
      && FaceIsTriangle(r2, q.f1) && FaceIsTriangle(r2, q.f2)
      && FaceNodes(r2, q.f1) == (q.n2, q.n1, q.n3)
      && FaceNodes(r2, q.f2) == (q.n1, q.n2, q.n4)
  {
    FlipPreservesValid(m, e);
    FlipRewiresQuadrilateral(m, e);
    FlipPreservesValid(Flipped(m, e), e);
    FlipRewiresQuadrilateral(Flipped(m, e), e);
  }

  // ---------------------------------------------------------------------
  // The four-way convexity check

  /** The quadrilateral p1, p2, p3, p4 around an interior edge is strictly
      convex: each of its four corners turns left. */
  predicate IsConvexQuadrilateral(m: Mesh, e: nat)
    requires Indexed(m) && e < |m.he1|
    ensures IsConvexQuadrilateral(m, e) ==> IsDiagonalOfConvexQuadrilateral(m, e)
  {
    && !EdgeIsBoundary(m, e)
    && var p1, p2, p3, p4 := P1(m, e), P2(m, e), P3(m, e), P4(m, e);
    && OrientedSide(p1, p2, p3) == OnPositiveSide
    && OrientedSide(p2, p3, p4) == OnPositiveSide
    && OrientedSide(p3, p4, p1) == OnPositiveSide
    && OrientedSide(p4, p1, p2) == OnPositiveSide
  }

  /** After a legal flip the guard of the same edge compares the same four
      points with the diagonal p2 -> p4: p3 must lie right of it and p1 left. */
  lemma FlippedGuard(m: Mesh, e: nat)
    requires Valid(m) && e < |m.he1| && IsDiagonalOfConvexQuadrilateral(m, e)
    ensures var p1, p2, p3, p4 := P1(m, e), P2(m, e), P3(m, e), P4(m, e);
      IsDiagonalOfConvexQuadrilateral(Flipped(m, e), e) <==>
        OrientedSide(p2, p4, p3) == OnNegativeSide && OrientedSide(p2, p4, p1) == OnPositiveSide
  {
    FlipRewiresQuadrilateral(m, e);
  }

  /** The four-way check holds exactly when the flip guard holds both
      before the flip and, for the new diagonal, after it. */
  lemma ConvexIffFlippableBothWays(m: Mesh, e: nat)
    requires Valid(m) && e < |m.he1| && !EdgeIsBoundary(m, e)
    ensures IsConvexQuadrilateral(m, e) <==>
      IsDiagonalOfConvexQuadrilateral(m, e) && IsDiagonalOfConvexQuadrilateral(Flipped(m, e), e)
  {
    var p1, p2, p3, p4 := P1(m, e), P2(m, e), P3(m, e), P4(m, e);
    Orient2dSwapLast(p1, p2, p3);
    Orient2dCyclic(p1, p3, p4);
    Orient2dSwapLast(p2, p3, p4);
    Orient2dCyclic(p2, p4, p1);
    if IsDiagonalOfConvexQuadrilateral(m, e) {
      FlippedGuard(m, e);
    }
  }

  /** The six halfedges of a shaped quadrilateral wind counter-clockwise
      when the triangles (n1, n2, n4) and (n2, n1, n3) do. */
  lemma ShapedCounterClockwise(m: Mesh, q: Quad)
    requires Indexed(m) && QuadInRange(m, q) && Shaped(m, q)
    requires Orient2d(m.position[q.n1], m.position[q.n2], m.position[q.n4]) > 0.0
    requires Orient2d(m.position[q.n2], m.position[q.n1], m.position[q.n3]) > 0.0
    ensures forall h :: 0 <= h < |m.next| && InQuad(q, h) ==>
      Orient2d(m.position[m.origin[h]], m.position[m.origin[m.next[h]]],
               m.position[m.origin[m.next[m.next[h]]]]) > 0.0
  {
    var p1, p2, p3, p4 := m.position[q.n1], m.position[q.n2], m.position[q.n3], m.position[q.n4];
    Orient2dCyclic(p1, p2, p4);
    Orient2dCyclic(p2, p1, p3);
  }

  /** Faces off the quadrilateral keep their corners, hence their winding. */
  lemma OutsideKeepsCounterClockwise(m: Mesh, r: Mesh, q: Quad)
    requires Indexed(m) && Indexed(r) && |r.next| == |m.next| && r.position == m.position && QuadInRange(m, q)
    requires FacesAreThreeCycles(m) && FaceAnchors(m) && Shaped(m, q) && SameOutside(m, r, q)
    requires CounterClockwise(m)
    ensures forall h :: 0 <= h < |r.next| && r.face[h].Some? && !InQuad(q, h) ==>
      Orient2d(r.position[r.origin[h]], r.position[r.origin[r.next[h]]],
               r.position[r.origin[r.next[r.next[h]]]]) > 0.0
  {
    OutsideFaces(m, q);
    forall h | 0 <= h < |r.next| && r.face[h].Some? && !InQuad(q, h)
      ensures Orient2d(r.position[r.origin[h]], r.position[r.origin[r.next[h]]],
                       r.position[r.origin[r.next[r.next[h]]]]) > 0.0
    {
      var x := m.next[h];
      assert m.face[x] == m.face[h];
      assert m.face[m.next[x]] == m.face[h];
    }
  }

  /** A turn keeps every face counter-clockwise when the two new
      triangles (n3, n4, n1) and (n4, n3, n2) are. */
  lemma TurningKeepsCounterClockwise(m: Mesh, r: Mesh, q: Quad)
    requires Turning(m, r, q) && FacesAreThreeCycles(m) && FaceAnchors(m) && CounterClockwise(m)
    requires Orient2d(m.position[q.n3], m.position[q.n4], m.position[q.n1]) > 0.0
    requires Orient2d(m.position[q.n4], m.position[q.n3], m.position[q.n2]) > 0.0
    ensures CounterClockwise(r)
  {
    ShapedCounterClockwise(r, Turned(q));
    OutsideKeepsCounterClockwise(m, r, q);
  }

  /** A flip that passes the four-way check keeps every face
      counter-clockwise. */
  lemma FlipKeepsCounterClockwise(m: Mesh, e: nat)
    requires Valid(m) && CounterClockwise(m) && e < |m.he1| && IsConvexQuadrilateral(m, e)
    ensures IsDiagonalOfConvexQuadrilateral(m, e)
    ensures CounterClockwise(Flipped(m, e))
  {
    ConvexIffFlippableBothWays(m, e);
    FlipRewiresQuadrilateral(m, e);
    var p1, p2, p3, p4 := P1(m, e), P2(m, e), P3(m, e), P4(m, e);
    Orient2dCyclic(p4, p1, p2);
    Orient2dCyclic(p2, p3, p4);
    TurningKeepsCounterClockwise(m, Flipped(m, e), QuadOf(m, e));
  }

  /** For a mesh whose faces all wind counter-clockwise, a flip the guard
      admits keeps that winding exactly when the quadrilateral passes the
      four-way check: the guard alone also admits quadrilaterals with a
      reflex corner, whose flip folds a triangle over. */
  lemma FlipKeepsCounterClockwiseIffConvex(m: Mesh, e: nat)
    requires Valid(m) && CounterClockwise(m) && e < |m.he1| && IsDiagonalOfConvexQuadrilateral(m, e)
    ensures CounterClockwise(Flipped(m, e)) <==> IsConvexQuadrilateral(m, e)
  {
    if IsConvexQuadrilateral(m, e) {
      FlipKeepsCounterClockwise(m, e);
    }
    var r := Flipped(m, e);
    if CounterClockwise(r) {
      FlipPreservesValid(m, e);
      FlipRewiresQuadrilateral(m, e);
      var q := QuadOf(m, e);
      assert r.face[q.h1].Some? && r.face[q.h2].Some?;
      GuardIffBothTrianglesCounterClockwise(r, e);
      ConvexIffFlippableBothWays(m, e);
    }
  }
}
