/** The half-edge connectivity of a planar triangulation, as an arena.
    Nodes, halfedges, edges and faces are indices; every reference field
    the core reads or writes becomes a sequence indexed by the entity. */
module Connectivity {
  import opened Wrappers
  import opened Kernel

  /** One snapshot of the whole arena.
      Per halfedge: next, prev, pair, origin, face (None on the boundary).
      Per edge: its two paired halfedges he1 and he2.
      Per face: its anchor halfedge faceHe.
      Per node: its anchor halfedge nodeHe (None when isolated) and position. */
  datatype Mesh = Mesh(
    next: seq<nat>,
    prev: seq<nat>,
    pair: seq<nat>,
    origin: seq<nat>,
    face: seq<Option<nat>>,
    he1: seq<nat>,
    he2: seq<nat>,
    faceHe: seq<nat>,
    nodeHe: seq<Option<nat>>,
    position: seq<Point>)

  /** Every element of s is below bound. */
  ghost predicate AllBelow(s: seq<nat>, bound: nat)
  {
    forall i :: 0 <= i < |s| ==> s[i] < bound
  }

  /** Every present element of s is below bound. */
  ghost predicate SomeBelow(s: seq<Option<nat>>, bound: nat)
  {
    forall i :: 0 <= i < |s| ==> s[i].Some? ==> s[i].value < bound
  }

  /** Every sequence has the length of its entity kind, and every stored
      handle refers to an existing entity. */
  ghost predicate Indexed(m: Mesh)
  {
    var hs := |m.next|;
    && |m.prev| == hs && |m.pair| == hs && |m.origin| == hs && |m.face| == hs
    && |m.he2| == |m.he1|
    && |m.position| == |m.nodeHe|
    && AllBelow(m.next, hs) && AllBelow(m.prev, hs) && AllBelow(m.pair, hs)
    && AllBelow(m.origin, |m.nodeHe|)
    && SomeBelow(m.face, |m.faceHe|)
    && AllBelow(m.he1, hs) && AllBelow(m.he2, hs)
    && AllBelow(m.faceHe, hs)
    && SomeBelow(m.nodeHe, hs)
  }

  /** pair is a fixed-point-free involution. */
  ghost predicate PairInvolution(m: Mesh)
    requires Indexed(m)
  {
    forall h :: 0 <= h < |m.next| ==> m.pair[h] != h && m.pair[m.pair[h]] == h
  }

  /** next and prev are mutual inverses. */
  ghost predicate NextPrevInverse(m: Mesh)
    requires Indexed(m)
  {
    forall h :: 0 <= h < |m.next| ==> m.prev[m.next[h]] == h && m.next[m.prev[h]] == h
  }

  /** The reverse halfedge starts where the halfedge ends, that is where
      its successor starts. */
  ghost predicate PairStartsAtDestination(m: Mesh)
    requires Indexed(m)
  {
    forall h :: 0 <= h < |m.next| ==> m.origin[m.pair[h]] == m.origin[m.next[h]]
  }

  /** Every halfedge that bounds a face lies on a closed 3-cycle of next
      links, all on that face. */
  ghost predicate FacesAreThreeCycles(m: Mesh)
    requires Indexed(m)
  {
    forall h :: 0 <= h < |m.next| && m.face[h].Some? ==>
      && m.next[h] != h
      && m.next[m.next[m.next[h]]] == h
      && m.face[m.next[h]] == m.face[h]
  }

  /** A face's anchor lies on the face, and every halfedge of the face lies
      on the cycle through the anchor. */
  ghost predicate FaceAnchors(m: Mesh)
    requires Indexed(m)
  {
    && (forall f :: 0 <= f < |m.faceHe| ==> m.face[m.faceHe[f]] == Some(f))
    && (forall h :: 0 <= h < |m.next| && m.face[h].Some? ==>
          var a := m.faceHe[m.face[h].value];
          h == a || h == m.next[a] || h == m.next[m.next[a]])
  }

  /** An edge's two halfedges are each other's pair. */
  ghost predicate EdgesArePairs(m: Mesh)
    requires Indexed(m)
  {
    forall e :: 0 <= e < |m.he1| ==> m.pair[m.he1[e]] == m.he2[e]
  }

  /** A node's stored halfedge, when present, originates at that node. */
  ghost predicate NodeAnchors(m: Mesh)
    requires Indexed(m)
  {
    forall n :: 0 <= n < |m.nodeHe| ==> m.nodeHe[n].Some? ==> m.origin[m.nodeHe[n].value] == n
  }

  /** The invariants of a triangulation's connectivity. */
  ghost predicate Valid(m: Mesh)
  {
    && Indexed(m)
    && PairInvolution(m)
    && NextPrevInverse(m)
    && PairStartsAtDestination(m)
    && FacesAreThreeCycles(m)
    && FaceAnchors(m)
    && EdgesArePairs(m)
    && NodeAnchors(m)
  }

  /** Every bounded face is wound counter-clockwise. */
  ghost predicate CounterClockwise(m: Mesh)
    requires Indexed(m)
  {
    forall h :: 0 <= h < |m.next| && m.face[h].Some? ==>
      Orient2d(m.position[m.origin[h]], m.position[m.origin[m.next[h]]],
               m.position[m.origin[m.next[m.next[h]]]]) > 0.0
  }

  // ---------------------------------------------------------------------
  // Halfedge, edge and face queries

  /** A halfedge is on the boundary when it bounds no face. */
  predicate HalfedgeIsBoundary(m: Mesh, h: nat)
    requires Indexed(m) && h < |m.next|
    ensures !HalfedgeIsBoundary(m, h) ==> m.face[h].Some? && m.face[h].value < |m.faceHe|
  {
    m.face[h] == None
  }

  /** An edge is on the boundary when either of its halfedges is. */
  predicate EdgeIsBoundary(m: Mesh, e: nat)
    requires Indexed(m) && e < |m.he1|
    ensures !EdgeIsBoundary(m, e) ==>
      && m.face[m.he1[e]].Some? && m.face[m.he1[e]].value < |m.faceHe|
      && m.face[m.he2[e]].Some? && m.face[m.he2[e]].value < |m.faceHe|
  {
    HalfedgeIsBoundary(m, m.he1[e]) || HalfedgeIsBoundary(m, m.he2[e])
  }

  /** The positions of the origins of the edge's two halfedges. */
  function EdgeVertices(m: Mesh, e: nat): (ps: (Point, Point))
    requires Indexed(m) && e < |m.he1|
    ensures ps.0 in m.position && ps.1 in m.position
  {
    (m.position[m.origin[m.he1[e]]], m.position[m.origin[m.he2[e]]])
  }

  /** The guard of the edge flip. With p1, p3 the origins of he1, he2 and
      p2, p4 the origins of the halfedges before he2 and he1, the edge is
      flippable when it is interior, p2 lies strictly right of p1 -> p3 and
      p4 strictly left of it. */
  predicate IsDiagonalOfConvexQuadrilateral(m: Mesh, e: nat)
    requires Indexed(m) && e < |m.he1|
    ensures IsDiagonalOfConvexQuadrilateral(m, e) ==> !EdgeIsBoundary(m, e)
  {
    if EdgeIsBoundary(m, e) then false
    else
      var p1 := m.position[m.origin[m.he1[e]]];
      var p2 := m.position[m.origin[m.prev[m.he2[e]]]];
      var p3 := m.position[m.origin[m.he2[e]]];
      var p4 := m.position[m.origin[m.prev[m.he1[e]]]];
      OrientedSide(p1, p3, p2) == OnNegativeSide && OrientedSide(p1, p3, p4) == OnPositiveSide
  }

  /** A face is a triangle when the halfedge before its anchor is two
      steps after it. */
  predicate FaceIsTriangle(m: Mesh, f: nat)
    requires Indexed(m) && f < |m.faceHe|
    ensures FaceIsTriangle(m, f) && NextPrevInverse(m) ==>
      m.next[m.next[m.next[m.faceHe[f]]]] == m.faceHe[f]
  {
    var h := m.faceHe[f];
    m.prev[h] == m.next[m.next[h]]
  }

  /** The three nodes of a triangular face: the origins of its anchor, of
      the anchor's pair and of the anchor's predecessor. */
  function FaceNodes(m: Mesh, f: nat): (ns: (nat, nat, nat))
    requires Indexed(m) && f < |m.faceHe| && FaceIsTriangle(m, f)
    ensures ns.0 < |m.nodeHe| && ns.1 < |m.nodeHe| && ns.2 < |m.nodeHe|
  {
    var h := m.faceHe[f];
    (m.origin[h], m.origin[m.pair[h]], m.origin[m.prev[h]])
  }

  // ---------------------------------------------------------------------
  // Lemmas about the queries

  /** The triangle test agrees with "three next steps lead back to the
      anchor", in both directions. */
  lemma TriangleIffThreeCycle(m: Mesh, f: nat)
    requires Indexed(m) && NextPrevInverse(m) && f < |m.faceHe|
    ensures FaceIsTriangle(m, f) <==> m.next[m.next[m.next[m.faceHe[f]]]] == m.faceHe[f]
  {
    var h := m.faceHe[f];
    var n2 := m.next[m.next[h]];
    if m.next[n2] == h {
      assert m.prev[h] == m.prev[m.next[n2]] == n2;
    }
    if m.prev[h] == n2 {
      assert m.next[n2] == m.next[m.prev[h]] == h;
    }
  }

  /** In a valid mesh every face is a triangle. */
  lemma ValidFacesAreTriangles(m: Mesh, f: nat)
    requires Valid(m) && f < |m.faceHe|
    ensures FaceIsTriangle(m, f)
  {
    TriangleIffThreeCycle(m, f);
  }

  /** In a valid mesh the nodes of a face are the origins of the three
      halfedges met walking next links from the anchor, all on that face. */
  lemma FaceNodesWalkTheCycle(m: Mesh, f: nat)
    requires Valid(m) && f < |m.faceHe|
    ensures FaceIsTriangle(m, f)
    ensures var h := m.faceHe[f];
      && FaceNodes(m, f) == (m.origin[h], m.origin[m.next[h]], m.origin[m.next[m.next[h]]])
      && m.face[h] == m.face[m.next[h]] == m.face[m.next[m.next[h]]] == Some(f)
  {
    ValidFacesAreTriangles(m, f);
  }

  /** The halfedge before a face's halfedge lies on the same face. */
  lemma PrevStaysOnFace(m: Mesh, h: nat)
    requires Valid(m) && h < |m.next|
    ensures m.face[h].Some? ==> m.face[m.prev[h]] == m.face[h]
  {
    if m.face[h].Some? {
      var a := m.next[h];
      assert m.prev[h] == m.prev[m.next[m.next[a]]] == m.next[a];
    }
  }

  /** A boundary halfedge's neighbours on its loop are boundary halfedges
      too: the boundary is made of whole next/prev loops. */
  lemma BoundaryLoopsAreClosed(m: Mesh, h: nat)
    requires Valid(m) && h < |m.next| && HalfedgeIsBoundary(m, h)
    ensures HalfedgeIsBoundary(m, m.next[h]) && HalfedgeIsBoundary(m, m.prev[h])
  {
    PrevStaysOnFace(m, m.next[h]);
    assert m.prev[m.next[h]] == h;
    assert m.next[m.prev[h]] == h;
  }

  /** An edge's second vertex is the destination of its first halfedge. */
  lemma EdgeVerticesAreEndpoints(m: Mesh, e: nat)
    requires Valid(m) && e < |m.he1|
    ensures EdgeVertices(m, e) == (m.position[m.origin[m.he1[e]]], m.position[m.origin[m.next[m.he1[e]]]])
  {
  }

  /** The flip guard holds exactly when the edge is interior and the two
      triangles it separates are both wound counter-clockwise. */
  lemma GuardIffBothTrianglesCounterClockwise(m: Mesh, e: nat)
    requires Valid(m) && e < |m.he1| && !EdgeIsBoundary(m, e)
    ensures var h1, h2 := m.he1[e], m.he2[e];
      IsDiagonalOfConvexQuadrilateral(m, e) <==>
        && Orient2d(m.position[m.origin[h1]], m.position[m.origin[m.next[h1]]],
                    m.position[m.origin[m.next[m.next[h1]]]]) > 0.0
        && Orient2d(m.position[m.origin[h2]], m.position[m.origin[m.next[h2]]],
                    m.position[m.origin[m.next[m.next[h2]]]]) > 0.0
  {
    var h1, h2 := m.he1[e], m.he2[e];
    var p1 := m.position[m.origin[h1]];
    var p3 := m.position[m.origin[h2]];
    var p2 := m.position[m.origin[m.prev[h2]]];
    var p4 := m.position[m.origin[m.prev[h1]]];
    assert m.next[m.next[h1]] == m.prev[h1] by {
      assert m.prev[m.next[m.next[m.next[h1]]]] == m.next[m.next[h1]];
    }
    assert m.next[m.next[h2]] == m.prev[h2] by {
      assert m.prev[m.next[m.next[m.next[h2]]]] == m.next[m.next[h2]];
    }
    assert m.origin[m.next[h1]] == m.origin[h2];
    assert m.origin[m.next[h2]] == m.origin[h1];
    Orient2dSwap(p1, p3, p2);
  }
}
