/** Maximum bipartite matching by depth-first augmentation, as googlemock pairs elements (left) with
    matchers (right).  The correctness argument is a certificate: a set of "dead" right nodes that
    is closed under the residual edges, so no augmenting path ever enters it. */
module BipartiteMatching {

  /** Stands for the sentinel kUnused, which is distinct from every index. */
  const UNUSED: int := -1

  datatype MatchMatrix = MatchMatrix(lhsSize: nat, rhsSize: nat, edges: set<(nat, nat)>) {
    predicate HasEdge(l: nat, r: nat) { (l, r) in edges }
  }

  type Links = seq<int>

  /** left and right are mutually referent, and every link is an edge. */
  ghost predicate Mutual(g: MatchMatrix, left: Links, right: Links) {
    && |left| == g.lhsSize
    && |right| == g.rhsSize
    && (forall l :: 0 <= l < |left| && left[l] != UNUSED ==>
          0 <= left[l] < |right| && right[left[l]] == l && g.HasEdge(l, left[l]))
    && (forall r :: 0 <= r < |right| && right[r] != UNUSED ==>
          0 <= right[r] < |left| && left[right[r]] == r)
  }

  ghost predicate NeighboursIn(g: MatchMatrix, l: int, targets: set<nat>) {
    forall r: nat :: r < g.rhsSize && 0 <= l && g.HasEdge(l, r) ==> r in targets
  }

  /** No residual path leaves a dead set: its right nodes are linked, to left nodes that see only the set. */
  ghost predicate Dead(g: MatchMatrix, right: Links, dead: set<nat>) {
    forall r :: r in dead ==> r < |right| && right[r] != UNUSED && NeighboursIn(g, right[r], dead)
  }

  /** The right links once the stale link that a matched start node leaves behind is dropped. */
  ghost function Unlink(right: Links, r: int): Links {
    if 0 <= r < |right| then right[r := UNUSED] else right
  }

  ghost function SeenSet(seen: seq<bool>): set<nat> {
    set r: nat | r < |seen| && seen[r]
  }

  ghost function Unseen(seen: seq<bool>): set<nat> {
    set r: nat | r < |seen| && !seen[r]
  }

  /** A search marks one right node more. */
  lemma Marking(seen0: seq<bool>, seen1: seq<bool>, r: nat)
    requires |seen0| == |seen1| && r < |seen1| && !seen1[r] && SeenSet(seen0) <= SeenSet(seen1)
    ensures var marked := seen1[r := true];
            SeenSet(marked) == SeenSet(seen1) + {r} && r !in SeenSet(seen0) && Unseen(marked) < Unseen(seen0)
  {
    var marked := seen1[r := true];
    forall k | k in Unseen(marked) ensures k in Unseen(seen0) {
      assert k !in SeenSet(seen0);
    }
    assert r !in SeenSet(seen1) && r !in SeenSet(seen0);
    assert !seen0[r] && r in Unseen(seen0) && r !in Unseen(marked);
  }

  /** Nothing a search had already passed is touched by it. */
  ghost predicate KeepsPassed(left0: Links, right0: Links, passed: set<nat>, left: Links, right: Links, l: nat) {
    && |left| == |left0|
    && |right| == |right0|
    && (forall i :: 0 <= i < |left| && i != l && (left0[i] == UNUSED || left0[i] in passed) ==> left[i] == left0[i])
    && (forall r :: 0 <= r < |right| && r in passed ==> right[r] == right0[r])
  }

  /** What a successful search from l did: apart from l's stale link the links are mutually referent,
      and l is the only left node whose use changed. */
  ghost predicate Augmented(g: MatchMatrix, left0: Links, left: Links, right: Links, l: nat) {
    && |left0| == |left| == g.lhsSize
    && l < |left|
    && left[l] != UNUSED
    && Mutual(g, left, Unlink(right, left0[l]))
    && (forall i :: 0 <= i < |left| && i != l ==> (left[i] == UNUSED <==> left0[i] == UNUSED))
  }

  /** Linking l to the free end r of the rest of the path closes the path. */
  lemma LinkCloses(g: MatchMatrix, left0: Links, left: Links, right: Links, l: nat, r: nat)
    requires l < |left0| == |left| == g.lhsSize && r < |right| == g.rhsSize
    requires g.HasEdge(l, r)
    requires left[l] == left0[l] && left0[l] != r
    requires left0[l] != UNUSED ==> 0 <= left0[l] < |right| && right[left0[l]] == l
    requires Mutual(g, left, Unlink(right, r))
    requires forall i :: 0 <= i < |left| ==> (left[i] == UNUSED <==> left0[i] == UNUSED)
    ensures Augmented(g, left0, left[l := r], right[r := l], l)
  {
    var left', right' := left[l := r], Unlink(right[r := l], left0[l]);
    forall i | 0 <= i < |left'| && left'[i] != UNUSED
      ensures 0 <= left'[i] < |right'| && right'[left'[i]] == i && g.HasEdge(i, left'[i])
    {
      if i != l {
        assert Unlink(right, r)[left[i]] == i;
      }
    }
    forall j | 0 <= j < |right'| && right'[j] != UNUSED
      ensures 0 <= right'[j] < |left'| && left'[right'[j]] == j
    {
      if j != r {
        assert Unlink(right, r)[j] == right[j];
      }
    }
  }

  lemma LinkedBack(g: MatchMatrix, left: Links, right: Links, r: nat)
    requires Mutual(g, left, right) && r < |right| && right[r] != UNUSED
    ensures 0 <= right[r] < |left| == g.lhsSize && left[right[r]] == r
  {}

  /** A search that marks r and goes on from there, or ends there, has augmented from l when it links l to r. */
  lemma PathCloses(g: MatchMatrix, left0: Links, right0: Links, passed: set<nat>, marked: set<nat>, dead: set<nat>,
                   left: Links, right: Links, l: nat, r: nat)
    requires l < g.lhsSize && r < g.rhsSize && g.HasEdge(l, r) && r !in passed && passed + {r} <= marked
    requires Mutual(g, left0, right0) && Dead(g, right0, dead) && (left0[l] != UNUSED ==> left0[l] in passed)
    requires if right0[r] == UNUSED then left == left0 && right == right0
             else
               && Augmented(g, left0, left, right, right0[r])
               && KeepsPassed(left0, right0, marked, left, right, right0[r])
               && !NeighboursIn(g, right0[r], dead)
               && forall d :: d in dead ==> d < |right| && right[d] == right0[d]
    ensures l < |left| && r < |right|
    ensures Augmented(g, left0, left[l := r], right[r := l], l)
    ensures KeepsPassed(left0, right0, passed, left[l := r], right[r := l], l)
    ensures !NeighboursIn(g, l, dead)
    ensures forall d :: d in dead ==> d < |right| && right[r := l][d] == right0[d]
  {
    LinkCloses(g, left0, left, right, l, r);
  }

  class MaxBipartiteMatchState {
    const graph: MatchMatrix
    const left: array<int>
    const right: array<int>

    ghost predicate Shaped() {
      left != right && left.Length == graph.lhsSize && right.Length == graph.rhsSize
    }

    constructor (g: MatchMatrix)
      ensures graph == g && Shaped() && fresh(left) && fresh(right)
      ensures forall l :: 0 <= l < left.Length ==> left[l] == UNUSED
      ensures forall r :: 0 <= r < right.Length ==> right[r] == UNUSED
    {
      graph := g;
      left := new int[g.lhsSize](_ => UNUSED);
      right := new int[g.rhsSize](_ => UNUSED);
    }

    /** Depth-first search from left node ilhs.  A failed search changes no link and leaves a dead
        set in seen; a successful one augments.  No search succeeds inside a set that was dead
        before, nor does it touch one. */
    method TryAugment(ilhs: nat, seen: array<bool>, ghost dead: set<nat>) returns (found: bool)
      requires Shaped() && ilhs < graph.lhsSize && seen.Length == graph.rhsSize
      requires Mutual(graph, left[..], right[..]) && Dead(graph, right[..], dead)
      requires left[ilhs] != UNUSED ==> seen[left[ilhs]]
      modifies left, right, seen
      ensures SeenSet(old(seen[..])) <= SeenSet(seen[..])
      ensures !found ==> left[..] == old(left[..]) && right[..] == old(right[..])
      ensures !found ==> NeighboursIn(graph, ilhs, SeenSet(seen[..]))
      ensures !found ==> forall r :: r in SeenSet(seen[..]) - SeenSet(old(seen[..])) ==>
                                       right[r] != UNUSED && NeighboursIn(graph, right[r], SeenSet(seen[..]))
      ensures found ==> Augmented(graph, old(left[..]), left[..], right[..], ilhs)
      ensures found ==> KeepsPassed(old(left[..]), old(right[..]), SeenSet(old(seen[..])), left[..], right[..], ilhs)
      ensures found ==> !NeighboursIn(graph, ilhs, dead)
      ensures found ==> forall r :: r in dead ==> right[r] == old(right[r])
      decreases Unseen(seen[..])
    {
      ghost var left0, right0, seen0 := left[..], right[..], seen[..];
      assert left0[ilhs] != UNUSED ==> left0[ilhs] in SeenSet(seen0);
      hide Unseen; hide Mutual; hide Augmented; hide KeepsPassed;
      for irhs := 0 to graph.rhsSize
        invariant left[..] == left0 && right[..] == right0
        invariant SeenSet(seen0) <= SeenSet(seen[..])
        invariant forall r: nat :: r < irhs && graph.HasEdge(ilhs, r) ==> r in SeenSet(seen[..])
        invariant forall r :: r in SeenSet(seen[..]) - SeenSet(seen0) ==>
                                right0[r] != UNUSED && NeighboursIn(graph, right0[r], SeenSet(seen[..]))
      {
        if seen[irhs] {
          continue;
        }
        if !graph.HasEdge(ilhs, irhs) {
          continue;
        }
        ghost var seen1 := seen[..];
        seen[irhs] := true;
        assert seen[..] == seen1[irhs := true];
        Marking(seen0, seen1, irhs);
        var free := right[irhs] == UNUSED;
        if !free {
          LinkedBack(graph, left0, right0, irhs);
          free := TryAugment(right[irhs], seen, dead);
        }
        if free {
          PathCloses(graph, left0, right0, SeenSet(seen0), SeenSet(seen1[irhs := true]), dead,
                     left[..], right[..], ilhs, irhs);
          left[ilhs] := irhs;
          right[irhs] := ilhs;
          return true;
        }
      }
      return false;
    }

    /** The pass over the left nodes.  The dead set it leaves is the certificate of maximality. */
    method AugmentAll() returns (ghost dead: set<nat>)
      requires Shaped()
      requires forall l :: 0 <= l < left.Length ==> left[l] == UNUSED
      requires forall r :: 0 <= r < right.Length ==> right[r] == UNUSED
      modifies left, right
      ensures Certified(graph, left[..], right[..], dead)
    {
      dead := {};
      for ilhs := 0 to graph.lhsSize
        invariant Mutual(graph, left[..], right[..]) && Dead(graph, right[..], dead)
        invariant forall l :: ilhs <= l < left.Length ==> left[l] == UNUSED
        invariant forall l :: 0 <= l < ilhs && left[l] == UNUSED ==> NeighboursIn(graph, l, dead)
      {
        assert left[ilhs] == UNUSED;
        var seen := new bool[graph.rhsSize](_ => false);
        var found := TryAugment(ilhs, seen, dead);
        if !found {
          dead := dead + SeenSet(seen[..]);
        }
      }
    }

    /** One pass over the left nodes; the result is a maximum matching. */
    method Compute() returns (result: seq<(nat, nat)>)
      requires Shaped()
      requires forall l :: 0 <= l < left.Length ==> left[l] == UNUSED
      requires forall r :: 0 <= r < right.Length ==> right[r] == UNUSED
      modifies left, right
      ensures IsMatching(graph, result)
      ensures forall other :: IsMatching(graph, other) ==> |other| <= |result|
      ensures forall i, j :: 0 <= i < j < |result| ==> result[i].0 < result[j].0
    {
      hide IsMatching; hide Certified; hide UsedLinks;
      ghost var dead := AugmentAll();
      ghost var links, back := left[..], right[..];
      result := [];
      UsedNone();
      assert links[..0] == [];
      for ilhs := 0 to left.Length
        invariant left[..] == links && result == UsedLinks(links[..ilhs])
      {
        var irhs := left[ilhs];
        UsedNext(graph, links, back, dead, ilhs);
        if irhs == UNUSED {
          continue;
        }
        result := result + [(ilhs, irhs)];
      }
      assert links[..left.Length] == links;
      Maximum(graph, links, back, dead);
    }
  }

  /** The links are a matching that a dead set proves maximum. */
  ghost predicate Certified(g: MatchMatrix, left: Links, right: Links, dead: set<nat>) {
    && Mutual(g, left, right)
    && Dead(g, right, dead)
    && (forall l :: 0 <= l < |left| && left[l] == UNUSED ==> NeighboursIn(g, l, dead))
  }

  ghost predicate IsMatching(g: MatchMatrix, pairs: seq<(nat, nat)>) {
    && (forall i :: 0 <= i < |pairs| ==>
          pairs[i].0 < g.lhsSize && pairs[i].1 < g.rhsSize && pairs[i] in g.edges)
    && (forall i, j :: 0 <= i < j < |pairs| ==> pairs[i].0 != pairs[j].0 && pairs[i].1 != pairs[j].1)
  }

  /** The used links in index order. */
  function UsedLinks(left: Links): (pairs: seq<(nat, nat)>)
    ensures forall i :: 0 <= i < |pairs| ==> pairs[i].0 < |left| && left[pairs[i].0] == pairs[i].1
    ensures forall i, j :: 0 <= i < j < |pairs| ==> pairs[i].0 < pairs[j].0
    ensures forall l: nat :: l < |left| && 0 <= left[l] ==> (l, left[l]) in pairs
  {
    if left == [] then []
    else
      var n := |left| - 1;
      UsedLinks(left[..n]) + (if left[n] < 0 then [] else [(n, left[n])])
  }

  lemma UsedNone()
    ensures UsedLinks([]) == []
  {}

  lemma UsedNext(g: MatchMatrix, left: Links, right: Links, dead: set<nat>, l: nat)
    requires Certified(g, left, right, dead) && l < |left|
    ensures left[l] == UNUSED ==> UsedLinks(left[..l + 1]) == UsedLinks(left[..l])
    ensures left[l] != UNUSED ==> 0 <= left[l] && UsedLinks(left[..l + 1]) == UsedLinks(left[..l]) + [(l, left[l])]
  {
    assert left[..l + 1][..l] == left[..l];
  }

  /** A list without repetition fits in any set that holds its elements. */
  lemma {:induction false} DistinctFits<T>(s: seq<T>, X: set<T>)
    requires forall i :: 0 <= i < |s| ==> s[i] in X
    requires forall i, j :: 0 <= i < j < |s| ==> s[i] != s[j]
    ensures |s| <= |X|
  {
    if s != [] {
      DistinctFits(s[1..], X - {s[0]});
    }
  }

  /** A list that mentions every element of a set is at least as long. */
  lemma {:induction false} CoverFits<T>(s: seq<T>, X: set<T>)
    requires forall x :: x in X ==> x in s
    ensures |X| <= |s|
  {
    if s == [] {
      assert X == {};
    } else {
      assert s == [s[0]] + s[1..];
      CoverFits(s[1..], X - {s[0]});
    }
  }

  /** Why one pass is enough: when every unused left node sees only a dead set, any matching is sent
      one to one into the used left nodes, a pair into the dead set going to its right node's mate. */
  lemma CertificateBounds(g: MatchMatrix, left: Links, right: Links, dead: set<nat>, other: seq<(nat, nat)>)
    requires Certified(g, left, right, dead)
    requires IsMatching(g, other)
    ensures |other| <= |UsedLinks(left)|
  {
    var used := set l: nat | l < |left| && left[l] != UNUSED;
    var sent: seq<nat> := seq(|other|, k requires 0 <= k < |other| =>
      if other[k].1 in dead then right[other[k].1] as nat else other[k].0);
    DistinctFits(sent, used);
    var firsts := seq(|UsedLinks(left)|, k requires 0 <= k < |UsedLinks(left)| => UsedLinks(left)[k].0);
    forall l | l in used ensures l in firsts {
      var k :| 0 <= k < |UsedLinks(left)| && UsedLinks(left)[k] == (l, left[l] as nat);
      assert firsts[k] == l;
    }
    CoverFits(firsts, used);
  }

  lemma Maximum(g: MatchMatrix, left: Links, right: Links, dead: set<nat>)
    requires Certified(g, left, right, dead)
    ensures IsMatching(g, UsedLinks(left))
    ensures forall other :: IsMatching(g, other) ==> |other| <= |UsedLinks(left)|
  {
    forall other | IsMatching(g, other) ensures |other| <= |UsedLinks(left)| {
      CertificateBounds(g, left, right, dead, other);
    }
  }

  method FindMaxBipartiteMatching(g: MatchMatrix) returns (pairs: seq<(nat, nat)>)
    ensures IsMatching(g, pairs)
    ensures forall other :: IsMatching(g, other) ==> |other| <= |pairs|
    ensures forall i, j :: 0 <= i < j < |pairs| ==> pairs[i].0 < pairs[j].0
  {
    var state := new MaxBipartiteMatchState(g);
    pairs := state.Compute();
  }

  /** An element for every matcher, no element used twice. */
  ghost predicate IsPairing(g: MatchMatrix, choice: seq<nat>) {
    && |choice| == g.rhsSize
    && (forall r :: 0 <= r < |choice| ==> choice[r] < g.lhsSize && (choice[r], r) in g.edges)
    && (forall q, r :: 0 <= q < r < |choice| ==> choice[q] != choice[r])
  }

  lemma MatchingFits(g: MatchMatrix, pairs: seq<(nat, nat)>, rights: set<nat>)
    requires IsMatching(g, pairs)
    requires forall k :: 0 <= k < |pairs| ==> pairs[k].1 in rights
    ensures |pairs| <= |rights|
  {
    DistinctFits(seq(|pairs|, k requires 0 <= k < |pairs| => pairs[k].1), rights);
  }

  ghost function RightNodes(n: nat): (all: set<nat>)
    ensures |all| == n
    ensures forall r: nat :: r in all <==> r < n
  {
    if n == 0 then {} else RightNodes(n - 1) + {n - 1}
  }

  ghost predicate Reaches(pairs: seq<(nat, nat)>, r: nat) {
    exists k :: 0 <= k < |pairs| && pairs[k].1 == r
  }

  ghost function MateIn(pairs: seq<(nat, nat)>, r: nat): (l: nat)
    requires Reaches(pairs, r)
    ensures (l, r) in pairs
  {
    var k :| 0 <= k < |pairs| && pairs[k].1 == r;
    assert pairs[k] == (pairs[k].0, r);
    pairs[k].0
  }

  /** A matching as large as the right side reaches every right node. */
  lemma PairingOf(g: MatchMatrix, pairs: seq<(nat, nat)>) returns (choice: seq<nat>)
    requires IsMatching(g, pairs) && |pairs| == g.rhsSize
    ensures IsPairing(g, choice)
  {
    var all := RightNodes(g.rhsSize);
    forall r: nat | r < g.rhsSize ensures Reaches(pairs, r) {
      if !Reaches(pairs, r) {
        MatchingFits(g, pairs, all - {r});
      }
    }
    choice := seq(g.rhsSize, r requires 0 <= r < g.rhsSize && Reaches(pairs, r) => MateIn(pairs, r));
  }

  method FindPairing(g: MatchMatrix) returns (result: bool)
    ensures result <==> exists choice :: IsPairing(g, choice)
  {
    var matches := FindMaxBipartiteMatching(g);
    result := |matches| == g.rhsSize;
    if result {
      ghost var choice := PairingOf(g, matches);
    } else {
      MatchingFits(g, matches, RightNodes(g.rhsSize));
      forall choice | IsPairing(g, choice) ensures false {
        var other: seq<(nat, nat)> := seq(|choice|, r requires 0 <= r < |choice| => (choice[r], r));
        assert IsMatching(g, other);
      }
    }
  }
}
