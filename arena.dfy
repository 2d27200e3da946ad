/** The triangulation's entities as one mutable arena. Every handle of the
    original is an index, and every reference field the core reads or
    writes a sequence the methods below reassign in place, one write at a
    time. */
module Arena {
  import opened Wrappers
  import opened Connectivity
  import opened Rotation
  import opened EdgeFlip

  class Triangulation {
    var next: seq<nat>
    var prev: seq<nat>
    var pair: seq<nat>
    var origin: seq<nat>
    var face: seq<Option<nat>>
    var he1: seq<nat>
    var he2: seq<nat>
    var faceHe: seq<nat>
    var nodeHe: seq<Option<nat>>
    var position: seq<Kernel.Point>

    /** The fields, read as one snapshot. */
    function State(): Mesh
      reads this
    {
      Mesh(next, prev, pair, origin, face, he1, he2, faceHe, nodeHe, position)
    }

    constructor(m: Mesh)
      requires Valid(m)
      ensures State() == m
    {
      next, prev, pair, origin, face := m.next, m.prev, m.pair, m.origin, m.face;
      he1, he2, faceHe, nodeHe, position := m.he1, m.he2, m.faceHe, m.nodeHe, m.position;
    }

    /** The number of halfedges leaving node n: 0 for an isolated node,
        otherwise the number of pair-then-next steps that lead from the
        node's anchor back to it. */
    method Degree(n: nat) returns (d: nat)
      requires Indexed(State()) && PairInvolution(State()) && NextPrevInverse(State()) && n < |nodeHe|
      ensures nodeHe[n].None? ==> d == 0
      ensures nodeHe[n].Some? ==> IsRotationPeriod(State(), nodeHe[n].value, d)
    {
      d := 0;
      if nodeHe[n].Some? {
        ghost var m := State();
        var start := nodeHe[n].value;
        RotationReturns(m, start);
        ghost var k :| 1 <= k <= |m.next| && RotIter(m, start, k) == start;
        d := 1;
        var it := next[pair[start]];
        while it != start
          invariant 1 <= d <= k
          invariant it == RotIter(m, start, d)
          invariant forall j :: 1 <= j < d ==> RotIter(m, start, j) != start
          decreases k - d
        {
          d := d + 1;
          it := next[pair[it]];
        }
      }
    }

    /** The first halfedge without a face met walking around node n from
        its anchor, if any: None for an isolated node and for a node whose
        every outgoing halfedge bounds a face. */
    method BoundaryHalfedge(n: nat) returns (r: Option<nat>)
      requires Indexed(State()) && PairInvolution(State()) && NextPrevInverse(State())
      requires n < |nodeHe|
      ensures nodeHe[n].None? ==> r.None?
      ensures r.Some? ==> r.value < |next| && face[r.value].None?
      ensures r.Some? ==> nodeHe[n].Some? && exists i: nat ::
        (r.value == RotIter(State(), nodeHe[n].value, i) &&
         forall j: nat :: j < i ==> face[RotIter(State(), nodeHe[n].value, j)].Some?)
      ensures r.None? && nodeHe[n].Some? ==>
        forall i: nat :: face[RotIter(State(), nodeHe[n].value, i)].Some?
    {
      if nodeHe[n].None? {
        return None;
      }
      ghost var m := State();
      var start := nodeHe[n].value;
      RotationReturns(m, start);
      ghost var k :| 1 <= k <= |m.next| && RotIter(m, start, k) == start;
      var it := start;
      ghost var i := 0;
      while true
        invariant 0 <= i < k
        invariant it == RotIter(m, start, i)
        invariant FacedBefore(m, start, i)
        decreases k - i
      {
        if face[it].None? {
          forall j: nat | j < i ensures face[RotIter(m, start, j)].Some? {
            FacedBeforeEach(m, start, i, j);
          }
          return Some(it);
        }
        ghost var seen := it;
        it := next[pair[it]];
        i := i + 1;
        assert it == Rot(m, seen);
        if it == start {
          break;
        }
        assert i != k;
      }
      forall l: nat ensures m.face[RotIter(m, start, l)].Some? {
        RotIterPeriodic(m, start, i, l);
        var j :| 0 <= j < i && RotIter(m, start, l) == RotIter(m, start, j);
        FacedBeforeEach(m, start, i, j);
      }
      return None;
    }

    /** A node is on the boundary exactly when some halfedge around it
        bounds no face. */
    method NodeIsBoundary(n: nat) returns (b: bool)
      requires Indexed(State()) && PairInvolution(State()) && NextPrevInverse(State())
      requires n < |nodeHe|
      ensures b <==> nodeHe[n].Some? && exists i: nat :: face[RotIter(State(), nodeHe[n].value, i)].None?
    {
      var r := BoundaryHalfedge(n);
      b := r.Some?;
    }

    /** The first writes of the flip: f1 is anchored at h1 and f2 at h2,
        and h1, h4, h5 now bound f1 while h2, h6, h3 bound f2. */
    method SetFaces(q: Quad)
      requires |face| == |next|
      requires q.h1 < |next| && q.h2 < |next| && q.h3 < |next| && q.h4 < |next| && q.h5 < |next| && q.h6 < |next|
      requires q.f1 < |faceHe| && q.f2 < |faceHe|
      modifies this
      ensures State() == old(State()).(
        faceHe := old(faceHe)[q.f1 := q.h1][q.f2 := q.h2],
        face := old(face)[q.h1 := Some(q.f1)][q.h4 := Some(q.f1)][q.h5 := Some(q.f1)]
                         [q.h2 := Some(q.f2)][q.h6 := Some(q.f2)][q.h3 := Some(q.f2)])
      ensures next == old(next) && prev == old(prev)
    {
      faceHe := faceHe[q.f1 := q.h1];
      faceHe := faceHe[q.f2 := q.h2];

      face := face[q.h1 := Some(q.f1)];
      face := face[q.h4 := Some(q.f1)];
      face := face[q.h5 := Some(q.f1)];
      face := face[q.h2 := Some(q.f2)];
      face := face[q.h6 := Some(q.f2)];
      face := face[q.h3 := Some(q.f2)];
    }

    /** n1's anchor moves from h1 to h5 and then n2's from h2 to h3, each
        only when it was there. */
    method MoveNodeAnchors(q: Quad)
      requires q.n1 < |nodeHe| && q.n2 < |nodeHe|
      modifies this
      ensures var anchors1 := if old(nodeHe)[q.n1] == Some(q.h1) then old(nodeHe)[q.n1 := Some(q.h5)] else old(nodeHe);
        State() == old(State()).(
          nodeHe := if anchors1[q.n2] == Some(q.h2) then anchors1[q.n2 := Some(q.h3)] else anchors1)
      ensures next == old(next) && prev == old(prev)
    {
      if nodeHe[q.n1] == Some(q.h1) {
        nodeHe := nodeHe[q.n1 := Some(q.h5)];
      }
      if nodeHe[q.n2] == Some(q.h2) {
        nodeHe := nodeHe[q.n2 := Some(q.h3)];
      }
    }

    /** h1 now starts at n3 and h2 at n4. */
    method SetOrigins(q: Quad)
      requires q.h1 < |origin| && q.h2 < |origin|
      modifies this
      ensures State() == old(State()).(origin := old(origin)[q.h1 := q.n3][q.h2 := q.n4])
      ensures next == old(next) && prev == old(prev)
    {
      origin := origin[q.h1 := q.n3];
      origin := origin[q.h2 := q.n4];
    }

    /** Links a -> b -> c -> a with next, then the reverse with prev. */
    method LinkTriangle(a: nat, b: nat, c: nat)
      requires |prev| == |next| && a < |next| && b < |next| && c < |next|
      modifies this
      ensures State() == old(State()).(
        next := old(next)[a := b][b := c][c := a],
        prev := old(prev)[a := c][c := b][b := a])
      ensures |next| == |old(next)| && |prev| == |old(prev)|
    {
      next := next[a := b];
      next := next[b := c];
      next := next[c := a];
      prev := prev[a := c];
      prev := prev[c := b];
      prev := prev[b := a];
    }

    /** Flips edge e in place: reads the quadrilateral around it, then
        makes the writes of the original in its order. */
    method Flip(e: nat)
      requires Valid(State()) && e < |he1| && IsDiagonalOfConvexQuadrilateral(State(), e)
      modifies this
      ensures State() == Flipped(old(State()), e)
      ensures Valid(State())
      ensures old(IsConvexQuadrilateral(State(), e) && CounterClockwise(State())) ==> CounterClockwise(State())
    {
      ghost var m := State();
      var h1 := he1[e];
      var h2 := he2[e];
      var f1 := face[h1].value;
      var f2 := face[h2].value;
      var n1 := origin[h1];
      var n2 := origin[h2];
      var h3 := next[h1];
      var h4 := prev[h1];
      var h5 := next[h2];
      var h6 := prev[h2];
      var n3 := origin[h6];
      var n4 := origin[h4];
      var q := Quad(h1, h2, h3, h4, h5, h6, f1, f2, n1, n2, n3, n4);
      assert q == QuadOf(m, e);
      SetFaces(q);
      MoveNodeAnchors(q);
      SetOrigins(q);
      LinkTriangle(h1, h4, h5);
      LinkTriangle(h2, h6, h3);
      FlipPreservesValid(m, e);
      if IsConvexQuadrilateral(m, e) && CounterClockwise(m) {
        FlipKeepsCounterClockwise(m, e);
      }
    }
  }
}
