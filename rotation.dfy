/** The rotation around a node: from an outgoing halfedge h, the next
    outgoing halfedge is next(pair(h)). In a valid mesh this step is a
    permutation of the halfedges, so every walk returns to its start. */
module Rotation {
  import opened Wrappers
  import opened Connectivity

  /** One rotation step around the origin of h. */
  function Rot(m: Mesh, h: nat): (r: nat)
    requires Indexed(m) && h < |m.next|
    ensures r < |m.next|
  {
    m.next[m.pair[h]]
  }

  /** k rotation steps from h. */
  function RotIter(m: Mesh, h: nat, k: nat): (r: nat)
    requires Indexed(m) && h < |m.next|
    ensures r < |m.next|
  {
    if k == 0 then h else Rot(m, RotIter(m, h, k - 1))
  }

  /** k is the length of the rotation through h: the walk is back at h
      after k steps and not before. */
  ghost predicate IsRotationPeriod(m: Mesh, h: nat, k: nat)
    requires Indexed(m) && h < |m.next|
  {
    && 1 <= k
    && RotIter(m, h, k) == h
    && forall j :: 1 <= j < k ==> RotIter(m, h, j) != h
  }

  /** Every halfedge met on the rotation starts at the node h starts at. */
  lemma {:induction false} RotationStaysAtNode(m: Mesh, h: nat, k: nat)
    requires Indexed(m) && PairInvolution(m) && PairStartsAtDestination(m) && h < |m.next|
    ensures m.origin[RotIter(m, h, k)] == m.origin[h]
  {
    if k > 0 {
      RotationStaysAtNode(m, h, k - 1);
      var x := RotIter(m, h, k - 1);
      assert m.origin[m.next[m.pair[x]]] == m.origin[m.pair[m.pair[x]]];
    }
  }

  /** The rotation step is injective: pair(prev(.)) undoes it. */
  lemma RotInjective(m: Mesh, a: nat, b: nat)
    requires Indexed(m) && PairInvolution(m) && NextPrevInverse(m) && a < |m.next| && b < |m.next|
    ensures Rot(m, a) == Rot(m, b) ==> a == b
  {
    assert m.pair[m.prev[Rot(m, a)]] == a;
    assert m.pair[m.prev[Rot(m, b)]] == b;
  }

  /** Two equal points of the walk, i < j, mean the walk closes after j - i steps. */
  lemma {:induction false} RotIterCancel(m: Mesh, h: nat, i: nat, j: nat)
    requires Indexed(m) && PairInvolution(m) && NextPrevInverse(m) && h < |m.next| && i <= j
    requires RotIter(m, h, i) == RotIter(m, h, j)
    ensures RotIter(m, h, j - i) == h
  {
    if i > 0 {
      RotInjective(m, RotIter(m, h, i - 1), RotIter(m, h, j - 1));
      RotIterCancel(m, h, i - 1, j - 1);
    }
  }

  /** Once the walk is back at its start after k steps, every later point
      of the walk is one of its first k points. */
  lemma {:induction false} RotIterPeriodic(m: Mesh, h: nat, k: nat, i: nat)
    requires Indexed(m) && h < |m.next| && 1 <= k && RotIter(m, h, k) == h
    ensures exists j :: 0 <= j < k && RotIter(m, h, i) == RotIter(m, h, j)
    decreases i
  {
    if i >= k {
      RotIterAdd(m, h, k, i - k);
      RotIterPeriodic(m, h, k, i - k);
    } else {
      // i itself is the witness j of the existential
      var j := i;
      assert 0 <= j < k && RotIter(m, h, i) == RotIter(m, h, j);
    }
  }

  /** Walking a + b steps is walking a steps, then b more. */
  lemma {:induction false} RotIterAdd(m: Mesh, h: nat, a: nat, b: nat)
    requires Indexed(m) && h < |m.next|
    ensures RotIter(m, h, a + b) == RotIter(m, RotIter(m, h, a), b)
  {
    if b > 0 {
      RotIterAdd(m, h, a, b - 1);
    }
  }

  /** A sequence of distinct elements of a set is no longer than the set. */
  lemma {:induction false} DistinctWithinSet(s: seq<nat>, within: set<nat>)
    requires forall i, j :: 0 <= i < j < |s| ==> s[i] != s[j]
    requires forall i :: 0 <= i < |s| ==> s[i] in within
    ensures |s| <= |within|
  {
    if |s| > 0 {
      var rest := s[1..];
      assert forall i :: 0 <= i < |rest| ==> rest[i] == s[i + 1];
      DistinctWithinSet(rest, within - {s[0]});
    }
  }

  /** The set of the naturals below n. */
  function Below(n: nat): (r: set<nat>)
    ensures |r| == n
    ensures forall x: nat :: x in r <==> x < n
  {
    if n == 0 then {} else Below(n - 1) + {n - 1}
  }

  /** n + 1 values below n cannot all be distinct. */
  lemma Pigeonhole(s: seq<nat>, n: nat)
    requires |s| > n
    requires forall i :: 0 <= i < |s| ==> s[i] < n
    ensures exists i, j :: 0 <= i < j < |s| && s[i] == s[j]
  {
    if forall i, j :: 0 <= i < j < |s| ==> s[i] != s[j] {
      DistinctWithinSet(s, Below(n));
      assert false;
    }
  }

  /** The first k + 1 points of the walk. */
  function Walk(m: Mesh, h: nat, k: nat): (w: seq<nat>)
    requires Indexed(m) && h < |m.next|
    ensures |w| == k + 1
    ensures forall i :: 0 <= i <= k ==> w[i] == RotIter(m, h, i)
  {
    if k == 0 then [h] else Walk(m, h, k - 1) + [RotIter(m, h, k)]
  }

  /** In a valid mesh the rotation through any halfedge closes within as
      many steps as there are halfedges. */
  lemma RotationReturns(m: Mesh, h: nat)
    requires Indexed(m) && PairInvolution(m) && NextPrevInverse(m) && h < |m.next|
    ensures exists k :: 1 <= k <= |m.next| && RotIter(m, h, k) == h
  {
    var w := Walk(m, h, |m.next|);
    Pigeonhole(w, |m.next|);
    var i, j :| 0 <= i < j < |w| && w[i] == w[j];
    RotIterCancel(m, h, i, j);
  }

  /** The rotation period through a halfedge is unique, so the degree a
      walk counts is determined by the mesh. */
  lemma RotationPeriodUnique(m: Mesh, h: nat, k1: nat, k2: nat)
    requires Indexed(m) && h < |m.next| && IsRotationPeriod(m, h, k1) && IsRotationPeriod(m, h, k2)
    ensures k1 == k2
  {
  }

  /** The first i halfedges of the rotation from h all bound a face. */
  ghost predicate FacedBefore(m: Mesh, h: nat, i: nat)
    requires Indexed(m) && h < |m.next|
  {
    i == 0 || (FacedBefore(m, h, i - 1) && m.face[RotIter(m, h, i - 1)].Some?)
  }

  /** FacedBefore, read as a statement about every step below i. */
  lemma {:induction false} FacedBeforeEach(m: Mesh, h: nat, i: nat, j: nat)
    requires Indexed(m) && h < |m.next| && FacedBefore(m, h, i) && j < i
    ensures m.face[RotIter(m, h, j)].Some?
  {
    if j < i - 1 {
      FacedBeforeEach(m, h, i - 1, j);
    }
  }

  /** The halfedges of one rotation period are pairwise distinct. */
  lemma RotationPeriodDistinct(m: Mesh, h: nat, k: nat, i: nat, j: nat)
    requires Valid(m) && h < |m.next| && IsRotationPeriod(m, h, k)
    requires i < j < k
    ensures RotIter(m, h, i) != RotIter(m, h, j)
  {
    if RotIter(m, h, i) == RotIter(m, h, j) {
      RotIterCancel(m, h, i, j);
      assert false;
    }
  }

  /** The outgoing halfedges of node n. */
  ghost function Outgoing(m: Mesh, n: nat): set<nat>
    requires Indexed(m)
  {
    set h: nat | h < |m.next| && m.origin[h] == n
  }

  /** The rotation period through a node's halfedge counts distinct
      outgoing halfedges of that node, so it never exceeds their number. */
  lemma RotationPeriodAtMostOutgoing(m: Mesh, h: nat, k: nat)
    requires Valid(m) && h < |m.next| && IsRotationPeriod(m, h, k)
    ensures k <= |Outgoing(m, m.origin[h])|
  {
    var w := Walk(m, h, k - 1);
    forall i, j | 0 <= i < j < |w| ensures w[i] != w[j] {
      RotationPeriodDistinct(m, h, k, i, j);
    }
    forall i | 0 <= i < |w| ensures w[i] in Outgoing(m, m.origin[h]) {
      RotationStaysAtNode(m, h, i);
    }
    DistinctWithinSet(w, Outgoing(m, m.origin[h]));
  }
}
