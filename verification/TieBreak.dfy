/**
  Of several largest cliques the search does not always return the one with the smallest mask: with
  the two edges 0-3 and 1-2 it finds {0, 3}, and prunes {1, 2} because that can only tie.
 */
module TieBreak {
  import opened CliqueGraph
  import opened CliqueSearch
  import opened MaxClique

  const TWO_EDGES: Graph := [{0, 3}, {1, 2}, {1, 2}, {0, 3}]

  lemma NeighboursNone(g: Graph, v: nat)
    requires v < |g|
    ensures Neighbours(g, v, []) == []
  {
  }

  lemma NeighboursNext(g: Graph, v: nat, s: seq<nat>, u: nat)
    requires v < |g|
    ensures Neighbours(g, v, s + [u]) == if Adj(g, v, u) then Neighbours(g, v, s) + [u] else Neighbours(g, v, s)
  {
    assert (s + [u])[..|s|] == s;
  }

  /** The pivot is vertex 0, with itself and its two non-neighbours to branch on. */
  lemma FirstPivot()
    ensures Vertices(TWO_EDGES, [0, 1, 2, 3]) && PickPivot(TWO_EDGES, [0, 1, 2, 3], 0) == Pick(0, 2, 1, 0, 0)
  {
    var g, w := TWO_EDGES, [0, 1, 2, 3];
    assert UnseenCount(g, 0, w, 0, 1) == 0 && UnseenCount(g, 0, w, 0, 2) == 1 && UnseenCount(g, 0, w, 0, 3) == 2 && UnseenCount(g, 0, w, 0, 4) == 2;
    assert UnseenCount(g, 1, w, 0, 1) == 1 && UnseenCount(g, 1, w, 0, 2) == 1 && UnseenCount(g, 1, w, 0, 3) == 1 && UnseenCount(g, 1, w, 0, 4) == 2;
    assert UnseenCount(g, 2, w, 0, 1) == 1 && UnseenCount(g, 2, w, 0, 2) == 1 && UnseenCount(g, 2, w, 0, 3) == 1 && UnseenCount(g, 2, w, 0, 4) == 2;
    assert UnseenCount(g, 3, w, 0, 1) == 0 && UnseenCount(g, 3, w, 0, 2) == 1 && UnseenCount(g, 3, w, 0, 3) == 2 && UnseenCount(g, 3, w, 0, 4) == 2;
    var pk := Pick(0, 2, 1, 0, 0);
    assert Compared(g, w, 0, 0, FirstPick(w)) == pk;
    assert Compared(g, w, 0, 1, pk) == pk && Compared(g, w, 0, 2, pk) == pk && Compared(g, w, 0, 3, pk) == pk;
    assert PickFrom(g, w, 0, 4, pk) == pk;
    assert PickFrom(g, w, 0, 3, pk) == pk;
    assert PickFrom(g, w, 0, 2, pk) == pk;
    assert PickFrom(g, w, 0, 1, pk) == pk;
  }

  /** The branch of 0 ends in {0, 3}. */
  lemma FirstBranch()
    ensures Vertices(TWO_EDGES, [3]) && Search(TWO_EDGES, [0], [], [3], 0) == [0, 3]
  {
    var g, w := TWO_EDGES, [3];
    assert UnseenCount(g, 3, w, 0, 1) == 0;
    var pk := Pick(3, 0, 1, 0, 0);
    assert Compared(g, w, 0, 0, FirstPick(w)) == pk && PickFrom(g, w, 0, 1, pk) == pk;
    assert PickPivot(g, w, 0) == pk;
    assert Swapped(w, 0, 0) == w && w[..0] == [] && w[1..] == [];
    assert Visited(g, [0], [], w, 0) == Better([], [0] + [3]);
    assert [0] + [3] == [0, 3];
    assert Loop(g, [0], [], w, 0, 3, 1, 0) == Loop(g, [0], [0, 3], w, 1, 3, 0, 0) == [0, 3];
  }

  const NODES := [0, 1, 2, 3]

  lemma NodesAreVertices()
    ensures Vertices(TWO_EDGES, NODES)
  {
  }

  lemma NeighboursOf0()
    ensures Neighbours(TWO_EDGES, 0, NODES[1..]) == [3]
  {
    NotSeenBy0();
    NeighboursNext(TWO_EDGES, 0, [1, 2], 3);
    assert NODES[1..] == [1, 2] + [3];
  }

  lemma NotSeenBy0()
    ensures Neighbours(TWO_EDGES, 0, [1, 2]) == []
  {
    NeighboursNext(TWO_EDGES, 0, [], 1);
    assert [] + [1] == [1] && Neighbours(TWO_EDGES, 0, [1]) == [];
    NeighboursNext(TWO_EDGES, 0, [1], 2);
    assert [1] + [2] == [1, 2];
  }

  /** The branch of the pivot is descended into. */
  lemma Branch0()
    ensures Vertices(TWO_EDGES, NODES) && Visited(TWO_EDGES, [], [], NODES, 0) == [0, 3]
  {
    NodesAreVertices();
    NeighboursOf0();
    assert NODES[..0] == [] && [] + [3] == [3] && [] + [0] == [0];
    VisitedIs(TWO_EDGES, [], [], NODES, 0, [], [3]);
    FirstBranch();
  }

  /** The branch of 1 could only tie, and is pruned. */
  lemma Branch1()
    ensures Vertices(TWO_EDGES, NODES) && Visited(TWO_EDGES, [], [0, 3], NODES, 1) == [0, 3]
  {
    var g := TWO_EDGES;
    NodesAreVertices();
    NeighboursNone(g, 1);
    NeighboursNext(g, 1, [], 0);
    NeighboursNext(g, 1, [], 2);
    NeighboursNext(g, 1, [2], 3);
    assert NODES[..1] == [] + [0] && NODES[2..] == [2] + [3] && [] + [2] == [2];
    assert Neighbours(g, 1, NODES[..1]) == [] && Neighbours(g, 1, NODES[2..]) == [2];
    VisitedIs(g, [], [0, 3], NODES, 1, [], [2]);
  }

  /** The branch of 2 has nothing left to add. */
  lemma Branch2()
    ensures Vertices(TWO_EDGES, NODES) && Visited(TWO_EDGES, [], [0, 3], NODES, 2) == [0, 3]
  {
    var g := TWO_EDGES;
    NodesAreVertices();
    NeighboursNone(g, 2);
    NeighboursNext(g, 2, [], 0);
    NeighboursNext(g, 2, [0], 1);
    NeighboursNext(g, 2, [], 3);
    assert NODES[..2] == [0] + [1] && NODES[3..] == [] + [3] && [] + [0] == [0] && [] + [1] == [1];
    assert Neighbours(g, 2, NODES[..2]) == [1] && Neighbours(g, 2, NODES[3..]) == [];
    VisitedIs(g, [], [0, 3], NODES, 2, [1], []);
  }

  /** The search returns {0, 3}. */
  lemma Found()
    ensures AllNodes(4) == [0, 1, 2, 3] && Search(TWO_EDGES, [], [], AllNodes(4), 0) == [0, 3]
  {
    var g, w := TWO_EDGES, NODES;
    assert AllNodes(4) == w;
    FirstPivot();
    Branch0();
    Branch1();
    Branch2();
    assert Swapped(w, 0, 0) == w && Swapped(w, 1, 1) == w && Swapped(w, 2, 2) == w;
    assert NextUnseen(g, 0, w, 1) == 1 && NextUnseen(g, 0, w, 2) == 2;
    assert Loop(g, [], [0, 3], w, 3, 0, 0, 2) == [0, 3];
    assert Loop(g, [], [0, 3], w, 2, 0, 1, 2) == [0, 3];
    assert Loop(g, [], [0, 3], w, 1, 0, 2, 1) == [0, 3];
    assert Loop(g, [], [], w, 0, 0, 3, 0) == [0, 3];
  }

  lemma Masks()
    ensures MaskValue([1, 2]) == 6 && MaskValue([0, 3]) == 9
  {
    assert [1, 2][..1] == [1] && [1][..0] == [] && [0, 3][..1] == [0] && [0][..0] == [];
    assert Pow2(0) == 1 && Pow2(1) == 2 && Pow2(2) == 4 && Pow2(3) == 8;
  }

  lemma IsAGraph()
    ensures IsGraph(TWO_EDGES)
  {
  }

  lemma TwoCliques()
    ensures IsClique(TWO_EDGES, {1, 2}) && IsClique(TWO_EDGES, {0, 3})
  {
  }

  /** Although {1, 2} is as large, with a smaller mask. */
  lemma SmallerMaskLost()
    ensures IsGraph(TWO_EDGES) && Search(TWO_EDGES, [], [], AllNodes(|TWO_EDGES|), 0) == [0, 3]
    ensures IsClique(TWO_EDGES, {1, 2}) && |[1, 2]| == |[0, 3]| && MaskValue([1, 2]) < MaskValue([0, 3])
  {
    IsAGraph();
    TwoCliques();
    Found();
    Masks();
  }
}
