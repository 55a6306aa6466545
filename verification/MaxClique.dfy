/**
  Maximum clique by Bron and Kerbosch (Algorithm 457, CACM 16(9)) with pivoting and pruning,
  as src/bkb.c runs it in place on arrays: it computes what CliqueSearch says, and that is a
  maximum clique.
 */
module MaxClique {
  import opened CliqueGraph
  import opened CliqueSearch

  class NodeList {
    var size: nat
    const nodes: array<nat>

    constructor ()
      ensures size == 0 && nodes.Length == MAX_NODES && fresh(nodes)
    {
      size := 0;
      nodes := new nat[MAX_NODES](_ => 0);
    }

    ghost predicate Valid()
      reads this
    {
      nodes.Length == MAX_NODES && size <= MAX_NODES
    }

    function Contents(): seq<nat>
      requires Valid()
      reads this, nodes
    {
      nodes[..size]
    }

    /** _list_append */
    method Append(n: nat)
      requires Valid() && size < MAX_NODES
      modifies this, nodes
      ensures Valid() && Contents() == old(Contents()) + [n]
    {
      nodes[size] := n;
      size := size + 1;
    }

    /** _list_copy */
    method CopyFrom(src: NodeList)
      requires Valid() && src.Valid() && src != this && src.nodes != nodes
      modifies this, nodes
      ensures Valid() && Contents() == src.Contents() == old(src.Contents())
    {
      size := src.size;
      for i := 0 to size
        invariant size == src.size && src.nodes[..] == old(src.nodes[..])
        invariant nodes[..i] == src.nodes[..i]
      {
        nodes[i] := src.nodes[i];
      }
    }
  }

  /** How many vertices of P = w[ne..] the candidate p does not see, counting no further than limit, and the last of them. */
  method CountUnseen(g: Graph, w: seq<nat>, ne: nat, p: nat, limit: nat) returns (cnt: nat, pos: int)
    requires ne <= |w| && p < |g|
    ensures cnt < limit ==> cnt == UnseenCount(g, p, w, ne, |w|) && pos == LastUnseen(g, p, w, ne, |w|)
    ensures cnt >= limit ==> UnseenCount(g, p, w, ne, |w|) >= limit
  {
    cnt, pos := 0, -1;
    var j := ne;
    while j < |w| && cnt < limit
      invariant ne <= j <= |w|
      invariant cnt == UnseenCount(g, p, w, ne, j) && pos == LastUnseen(g, p, w, ne, j)
    {
      if !Adj(g, p, w[j]) {
        cnt := cnt + 1;
        pos := j;
      }
      j := j + 1;
    }
    UnseenCountMono(g, p, w, ne, j, |w|);
  }

  lemma {:induction false} UnseenCountMono(g: Graph, p: nat, old_: seq<nat>, ne: nat, j: nat, ce: nat)
    requires p < |g| && ne <= j <= ce <= |old_|
    ensures UnseenCount(g, p, old_, ne, j) <= UnseenCount(g, p, old_, ne, ce)
  {
    if j < ce {
      UnseenCountMono(g, p, old_, ne, j, ce - 1);
    }
  }

  /** The pivot among w, of which w[ne..] is P: one with the fewest branches. */
  method ChoosePivot(g: Graph, w: seq<nat>, ne: nat) returns (fixp: nat, minnod: nat, nod: nat, s: int)
    requires IsGraph(g) && ne <= |w| && 0 < |w| && Vertices(g, w) && Distinct(w)
    ensures fixp in w && minnod == UnseenCount(g, fixp, w, ne, |w|)
    ensures forall j :: 0 <= j < |w| ==> minnod <= UnseenCount(g, w[j], w, ne, |w|)
    ensures PickPivot(g, w, ne) == Pick(fixp, minnod, nod, s, PickPivot(g, w, ne).fi)
  {
    minnod, nod, s, fixp := |w|, 0, -1, 0;
    ghost var fi := 0;
    var i := 0;
    while i < |w| && minnod != 0
      invariant i <= |w| && PickPivot(g, w, ne) == PickFrom(g, w, ne, i, Pick(fixp, minnod, nod, s, fi))
    {
      var p := w[i];
      var cnt, pos := CountUnseen(g, w, ne, p, minnod);
      if cnt < minnod {
        minnod, fixp, fi := cnt, p, i;
        if i < ne {
          s := pos;
        } else {
          s := i;
          nod := 1;
        }
      }
      i := i + 1;
    }
    PivotIsBest(g, w, ne);
    UnseenCounted(g, fixp, w, ne, |w|);
  }

  /** Copies the neighbours of sel among oldSet[lo..hi] to newSet, from position at on. */
  method KeepNeighbours(g: Graph, oldSet: array<nat>, lo: nat, hi: nat, sel: nat, newSet: array<nat>, at: nat) returns (end: nat)
    requires sel < |g| && lo <= hi <= oldSet.Length && oldSet != newSet && at + (hi - lo) <= newSet.Length
    modifies newSet
    ensures at <= end <= at + (hi - lo)
    ensures newSet[at..end] == Neighbours(g, sel, oldSet[lo..hi]) && newSet[..at] == old(newSet[..at])
  {
    end := at;
    for i := lo to hi
      invariant at <= end <= at + (i - lo)
      invariant newSet[at..end] == Neighbours(g, sel, oldSet[lo..i]) && newSet[..at] == old(newSet[..at])
    {
      assert oldSet[lo..i + 1][..i - lo] == oldSet[lo..i];
      if Adj(g, sel, oldSet[i]) {
        newSet[end] := oldSet[i];
        end := end + 1;
      }
    }
  }

  /** X and P for the recursive call: the neighbours of sel, in order. */
  method FormNewSet(g: Graph, oldSet: array<nat>, ne: nat, ce: nat, sel: nat, newSet: array<nat>)
    returns (newne: nat, newce: nat)
    requires sel < |g| && ne < ce <= oldSet.Length && oldSet.Length == newSet.Length && oldSet != newSet
    modifies newSet
    ensures newne <= newce <= newSet.Length
    ensures newSet[..newne] == Neighbours(g, sel, oldSet[..ne])
    ensures newSet[newne..newce] == Neighbours(g, sel, oldSet[ne + 1..ce])
  {
    newne := KeepNeighbours(g, oldSet, 0, ne, sel, newSet, 0);
    assert newSet[0..newne] == newSet[..newne] && oldSet[0..ne] == oldSet[..ne];
    newce := KeepNeighbours(g, oldSet, ne + 1, ce, sel, newSet, newne);
  }

  /** The lists and the work array do not overlap. */
  ghost predicate Separate(cur: NodeList, result: NodeList, w: array<nat>) {
    cur != result && cur.nodes != result.nodes && w != cur.nodes && w != result.nodes && w.Length == MAX_NODES
  }

  /** What is done with a branch: a leaf may become the result, a branch that can get larger is descended into. */
  method Branch(cur: NodeList, result: NodeList, g: Graph, newSet: array<nat>, newne: nat, newce: nat)
    requires IsGraph(g) && cur.Valid() && result.Valid() && Separate(cur, result, newSet) && newne <= newce <= newSet.Length
    requires Candidates(g, cur.Contents(), newSet[..newce]) && CliqueList(g, result.Contents())
    modifies cur, cur.nodes, result, result.nodes, newSet
    ensures cur.Valid() && cur.Contents() == old(cur.Contents()) && result.Valid()
    ensures result.Contents() == if newce == 0 then Better(old(result.Contents()), cur.Contents())
                                 else if newne < newce && cur.size + newce - newne > old(result.size)
                                 then Search(g, cur.Contents(), old(result.Contents()), old(newSet[..newce]), newne)
                                 else old(result.Contents())
    decreases newce - newne, 4
  {
    if newce == 0 {
      if result.size < cur.size || (result.size == cur.size && MaskValue(result.Contents()) > MaskValue(cur.Contents())) {
        result.CopyFrom(cur);
      }
    } else if newne < newce {
      if cur.size + newce - newne > result.size {
        Extend(cur, result, g, newSet, newne, newce);
      }
    }
  }

  lemma VisitedIs(g: Graph, r: seq<nat>, res: seq<nat>, w: seq<nat>, ne: nat, xs: seq<nat>, ps: seq<nat>)
    requires ne < |w| && Vertices(g, w) && xs == Neighbours(g, w[ne], w[..ne]) && ps == Neighbours(g, w[ne], w[ne + 1..])
    ensures Vertices(g, xs + ps)
    ensures Visited(g, r, res, w, ne) == if |xs + ps| == 0 then Better(res, r + [w[ne]])
                                         else if 0 < |ps| && |r| + 1 + |ps| > |res| then Search(g, r + [w[ne]], res, xs + ps, |xs|)
                                         else res
  {
    NewVertices(g, w, ne);
  }

  /** The work array of the branch that puts oldSet[ne] into the clique r. */
  method OpenBranch(g: Graph, oldSet: array<nat>, ne: nat, ce: nat, ghost r: seq<nat>, ghost res: seq<nat>)
    returns (newSet: array<nat>, newne: nat, newce: nat)
    requires IsGraph(g) && ne < ce <= oldSet.Length == MAX_NODES && Candidates(g, r, oldSet[..ce])
    ensures fresh(newSet) && newSet.Length == MAX_NODES && newne <= newce <= MAX_NODES && newce - newne < ce - ne
    ensures |r| < |g| && Candidates(g, r + [oldSet[ne]], newSet[..newce])
    ensures Visited(g, r, res, oldSet[..ce], ne) == if newce == 0 then Better(res, r + [oldSet[ne]])
                                                    else if newne < newce && |r| + 1 + newce - newne > |res|
                                                    then Search(g, r + [oldSet[ne]], res, newSet[..newce], newne)
                                                    else res
  {
    ghost var w := oldSet[..ce];
    assert w[..ne] == oldSet[..ne] && w[ne + 1..] == oldSet[ne + 1..ce];
    newSet := new nat[MAX_NODES](_ => 0);
    newne, newce := FormNewSet(g, oldSet, ne, ce, oldSet[ne], newSet);
    Descend(g, r, w, ne);
    assert newSet[..newce] == newSet[..newne] + newSet[newne..newce];
    VisitedIs(g, r, res, w, ne, newSet[..newne], newSet[newne..newce]);
  }

  /** The branch that puts sel = oldSet[ne] into the clique. */
  method Visit(cur: NodeList, result: NodeList, g: Graph, oldSet: array<nat>, ne: nat, ce: nat)
    requires IsGraph(g) && cur.Valid() && result.Valid() && Separate(cur, result, oldSet) && ne < ce <= oldSet.Length
    requires Candidates(g, cur.Contents(), oldSet[..ce]) && CliqueList(g, result.Contents())
    modifies cur, cur.nodes, result, result.nodes
    ensures cur.Valid() && cur.Contents() == old(cur.Contents())
    ensures result.Valid() && result.Contents() == Visited(g, cur.Contents(), old(result.Contents()), oldSet[..ce], ne)
    decreases ce - ne, 0
  {
    var sel := oldSet[ne];
    ghost var r, res := cur.Contents(), result.Contents();
    var newSet, newne, newce := OpenBranch(g, oldSet, ne, ce, r, res);
    ghost var next := newSet[..newce];
    cur.Append(sel);
    assert newSet[..newce] == next && result.Contents() == res;
    Branch(cur, result, g, newSet, newne, newce);
    cur.size := cur.size - 1;
    assert cur.Contents() == (r + [sel])[..|r|];
  }

  /** The next vertex of P that the pivot does not see. */
  method FindNext(g: Graph, oldSet: array<nat>, ne: nat, ce: nat, fixp: nat, ghost t: nat) returns (s: nat)
    requires fixp < |g| && ne <= t < ce <= oldSet.Length && !Adj(g, fixp, oldSet[t])
    ensures ne <= s < ce && !Adj(g, fixp, oldSet[s]) && forall i :: ne <= i < s ==> Adj(g, fixp, oldSet[i])
    ensures s == NextUnseen(g, fixp, oldSet[..ce], ne)
  {
    ghost var w := oldSet[..ce];
    s := ne;
    while Adj(g, fixp, oldSet[s])
      invariant ne <= s <= t && forall i :: ne <= i < s ==> Adj(g, fixp, oldSet[i])
      invariant NextUnseen(g, fixp, w, ne) == NextUnseen(g, fixp, w, s)
      decreases t - s
    {
      assert w[s] == oldSet[s];
      s := s + 1;
    }
    assert w[s] == oldSet[s];
  }

  /** The vertex at s moves to the border of X and P, its branch is explored, and the next one is found. */
  method Move(cur: NodeList, result: NodeList, g: Graph, oldSet: array<nat>, ne: nat, ce: nat, k: nat, s: int, fixp: nat, ghost level: Level)
    returns (s': int)
    requires cur.Valid() && result.Valid() && Separate(cur, result, oldSet) && ne <= ce <= oldSet.Length
    requires g == level.g && fixp == level.pivot && cur.Contents() == level.r && CliqueList(g, result.Contents())
    requires Halfway(level, result.size, Progress(oldSet[..ce], ne, k, s)) && k >= 1
    modifies cur, cur.nodes, result, result.nodes, oldSet
    ensures cur.Valid() && cur.Contents() == level.r && result.Valid()
    ensures fixp < |g| && ne <= s < ce && Vertices(g, Swapped(old(oldSet[..ce]), s, ne))
    ensures result.Contents() == Visited(g, level.r, old(result.Contents()), Swapped(old(oldSet[..ce]), s, ne), ne)
    ensures Progress(oldSet[..ce], ne + 1, k - 1, s') == Advanced(g, fixp, Progress(old(oldSet[..ce]), ne, k, s))
    decreases ce - ne, 1
  {
    ghost var size, at := result.size, Progress(oldSet[..ce], ne, k, s);
    SwapReady(level, size, at);
    Opened(level, size, at);
    var sel := oldSet[s];
    oldSet[s] := oldSet[ne];
    oldSet[ne] := sel;
    assert oldSet[..ce] == Swapped(at.w, s, ne);
    Visit(cur, result, g, oldSet, ne, ce);
    s' := s;
    if k > 1 {
      ghost var t := NextAfter(level, size, at);
      assert oldSet[..ce][t] == oldSet[t];
      s' := FindNext(g, oldSet, ne + 1, ce, fixp, t);
    }
  }

  /** What the branching loop will have found when it ends. */
  ghost predicate Leads(level: Level, res: seq<nat>, at: Progress, out: seq<nat>) {
    && WellPosed(level) && CliqueList(level.g, res) && Halfway(level, |res|, at) && Vertices(level.g, at.w)
    && Loop(level.g, level.r, res, at.w, at.ne, level.pivot, at.k, at.s) == out
  }

  /** The same, used by naming Leads. */
  ghost predicate LeadsTo(level: Level, res: seq<nat>, at: Progress, out: seq<nat>) {
    forall o {:trigger Leads(level, res, at, o)} :: o == out ==> Leads(level, res, at, o)
  }

  lemma TurnLeads(level: Level, res: seq<nat>, at: Progress, out: seq<nat>)
    requires LeadsTo(level, res, at, out) && at.k >= 1
    ensures level.pivot < |level.g| && at.ne <= at.s < |at.w| && Vertices(level.g, Swapped(at.w, at.s, at.ne))
    ensures LeadsTo(level, Visited(level.g, level.r, res, Swapped(at.w, at.s, at.ne), at.ne), Advanced(level.g, level.pivot, at), out)
  {
    assert Leads(level, res, at, out);
    LoopTurn(level, res, at);
  }

  /** The loop ends. */
  lemma Ended(level: Level, res: seq<nat>, at: Progress, out: seq<nat>)
    requires LeadsTo(level, res, at, out) && at.k == 0
    ensures res == out
  {
    assert Leads(level, res, at, out);
  }

  /** One turn of the branching loop. */
  method Turn(cur: NodeList, result: NodeList, g: Graph, oldSet: array<nat>, ne: nat, ce: nat, k: nat, s: int, fixp: nat,
              ghost level: Level, ghost out: seq<nat>) returns (s': int)
    requires cur.Valid() && result.Valid() && Separate(cur, result, oldSet) && ne <= ce <= oldSet.Length
    requires g == level.g && fixp == level.pivot && cur.Contents() == level.r && k >= 1
    requires LeadsTo(level, result.Contents(), Progress(oldSet[..ce], ne, k, s), out)
    modifies cur, cur.nodes, result, result.nodes, oldSet
    ensures cur.Valid() && cur.Contents() == level.r && result.Valid() && ne < ce
    ensures LeadsTo(level, result.Contents(), Progress(oldSet[..ce], ne + 1, k - 1, s'), out)
    decreases ce - ne, 2
  {
    TurnLeads(level, result.Contents(), Progress(oldSet[..ce], ne, k, s), out);
    assert Leads(level, result.Contents(), Progress(oldSet[..ce], ne, k, s), out);
    s' := Move(cur, result, g, oldSet, ne, ce, k, s, fixp, level);
  }

  /** extend: explores every clique made of cur and of P = oldSet[ne0..ce], with X = oldSet[..ne0]. */
  method Extend(cur: NodeList, result: NodeList, g: Graph, oldSet: array<nat>, ne0: nat, ce: nat)
    requires IsGraph(g) && cur.Valid() && result.Valid() && Separate(cur, result, oldSet) && ne0 <= ce <= oldSet.Length
    requires Candidates(g, cur.Contents(), oldSet[..ce]) && CliqueList(g, result.Contents())
    modifies cur, cur.nodes, result, result.nodes, oldSet
    ensures cur.Valid() && cur.Contents() == old(cur.Contents()) && result.Valid()
    ensures result.Contents() == Search(g, cur.Contents(), old(result.Contents()), old(oldSet[..ce]), ne0)
    decreases ce - ne0, 3
  {
    if ce == 0 {
      return;
    }
    ghost var r, start := cur.Contents(), oldSet[..ce];
    ghost var out := Search(g, r, result.Contents(), start, ne0);
    Parts(r, start);
    var fixp, minnod, nod, s := ChoosePivot(g, oldSet[..ce], ne0);
    var ne, k := ne0, minnod + nod;
    ghost var level := Begun(g, r, result.Contents(), start, ne0);
    while k >= 1
      invariant ne0 <= ne <= ce && cur.Valid() && cur.Contents() == r && result.Valid()
      invariant LeadsTo(level, result.Contents(), Progress(oldSet[..ce], ne, k, s), out)
    {
      s := Turn(cur, result, g, oldSet, ne, ce, k, s, fixp, level, out);
      ne, k := ne + 1, k - 1;
    }
    Ended(level, result.Contents(), Progress(oldSet[..ce], ne, k, s), out);
  }

  /** The branching loop begins. */
  lemma Begun(g: Graph, r: seq<nat>, res: seq<nat>, w: seq<nat>, ne: nat) returns (level: Level)
    requires IsGraph(g) && ne <= |w| && Candidates(g, r, w) && w != [] && Distinct(w) && CliqueList(g, res)
    ensures level.g == g && level.r == r && level.pivot == PickPivot(g, w, ne).fixp
    ensures var pk := PickPivot(g, w, ne);
            LeadsTo(level, res, Progress(w, ne, pk.minnod + pk.nod, pk.s), Search(g, r, res, w, ne))
  {
    PivotIsBest(g, w, ne);
    var pk := PickPivot(g, w, ne);
    Starts(g, r, w, ne, pk.fi, pk.minnod, pk.nod, pk.s, |res|);
    level := Level(g, r, w, ne, pk.fixp, Branches(g, pk.fixp, Elems(w[ne..])));
  }

  /** _list_to_nodemask as the set of its bits. */
  method ToMask(l: NodeList) returns (mask: set<nat>)
    requires l.Valid()
    ensures mask == Elems(l.Contents())
  {
    mask := {};
    for i := 0 to l.size
      invariant mask == Elems(l.nodes[..i])
    {
      assert l.nodes[..i + 1] == l.nodes[..i] + [l.nodes[i]];
      mask := mask + {l.nodes[i]};
    }
    assert l.nodes[..l.size] == l.Contents();
  }

  /** k is a clique of g, and no clique of g is larger. */
  ghost predicate MaximumClique(g: Graph, k: set<nat>) {
    IsClique(g, k) && forall c {:trigger IsClique(g, c)} :: IsClique(g, c) ==> |c| <= |k|
  }

  /** The order in which MtmFindMaxClique lists the vertices. */
  function AllNodes(n: nat): (s: seq<nat>)
    ensures |s| == n && forall i :: 0 <= i < n ==> s[i] == i
  {
    seq(n, i => i)
  }

  /** MtmFindMaxClique */
  method FindMaxClique(g: Graph) returns (mask: set<nat>, size: nat)
    requires IsGraph(g)
    ensures MaximumClique(g, mask) && size == |mask|
    ensures mask == Elems(Search(g, [], [], AllNodes(|g|), 0))
  {
    var n := |g|;
    var tmp := new NodeList();
    var result := new NodeList();
    var all := new nat[MAX_NODES](i => i);
    ghost var start := all[..n];
    assert start == AllNodes(n);
    Identity(start);
    assert start[..0] == [] && start[0..] == start && Elems([]) == {};
    assert tmp.Contents() == [] && result.Contents() == [] && [] + start == start;
    Extend(tmp, result, g, all, 0, n);
    SearchIsMaximum(g);
    size := result.size;
    mask := ToMask(result);
  }

  /** What a maximum clique is, spelled out: its members see each other, and no larger set of vertices does. */
  lemma MaximumInWords(g: Graph, mask: set<nat>)
    requires MaximumClique(g, mask)
    ensures forall u, v :: u in mask && v in mask ==> u < |g| && v in g[u]
    ensures forall c: set<nat> :: (forall u, v :: u in c && v in c ==> u < |g| && v in g[u]) ==> |c| <= |mask|
  {
    forall u, v | u in mask && v in mask
      ensures u < |g| && v in g[u]
    {
      assert Adj(g, u, v);
    }
    forall c: set<nat> | forall u, v :: u in c && v in c ==> u < |g| && v in g[u]
      ensures |c| <= |mask|
    {
      assert IsClique(g, c);
    }
  }

  lemma Identity(s: seq<nat>)
    requires forall i :: 0 <= i < |s| ==> s[i] == i
    ensures Elems(s) == Below(|s|) && Distinct(s)
  {
    forall v | v in Below(|s|)
      ensures v in s
    {
      assert s[v] == v;
    }
  }

  lemma CoversAll(g: Graph, start: seq<nat>, size: nat)
    requires Elems(start) == Below(|g|) && Covered(g, {}, Elems(start), {}, size)
    ensures forall c {:trigger IsClique(g, c)} :: IsClique(g, c) ==> |c| <= size
  {
    forall c | IsClique(g, c)
      ensures |c| <= size
    {
      assert c <= Elems(start) && !Extendable(g, c, {});
    }
  }

  /** What the search finds among all vertices is a largest clique. */
  lemma SearchIsMaximum(g: Graph)
    requires IsGraph(g)
    ensures CliqueList(g, Search(g, [], [], AllNodes(|g|), 0)) && MaximumClique(g, Elems(Search(g, [], [], AllNodes(|g|), 0)))
  {
    var start := AllNodes(|g|);
    Identity(start);
    assert start[..0] == [] && start[0..] == start && Elems([]) == {} && [] + start == start;
    SearchCovers(g, [], [], start, 0);
    CoversAll(g, start, |Search(g, [], [], start, 0)|);
  }

  /** A graph with one largest clique has that one found. */
  lemma OnlyLargest(g: Graph, k: set<nat>)
    requires IsGraph(g) && MaximumClique(g, k)
    requires forall c {:trigger IsClique(g, c)} :: IsClique(g, c) && |c| == |k| ==> c == k
    ensures Elems(Search(g, [], [], AllNodes(|g|), 0)) == k
  {
    SearchIsMaximum(g);
    assert IsClique(g, k) && IsClique(g, Elems(Search(g, [], [], AllNodes(|g|), 0)));
  }

  // ----- the connectivity clique -----

  const MTM_MAX_NODES: nat := 16

  /** Both ends report the link; every node sees itself. */
  predicate Linked(m: seq<set<nat>>, a: nat, b: nat)
    requires a < |m| && b < |m|
  {
    a == b || (b in m[a] && a in m[b])
  }

  /** Every two nodes of c report each other. */
  predicate AllLinked(m: seq<set<nat>>, c: set<nat>) {
    (forall v :: v in c ==> v < |m|) && forall a, b :: a in c && b in c ==> Linked(m, a, b)
  }

  lemma MutualInWords(m: seq<set<nat>>, k: set<nat>)
    requires AllLinked(m, k) && forall c {:trigger AllLinked(m, c)} :: AllLinked(m, c) ==> |c| <= |k|
    ensures forall a, b :: a in k && b in k && a != b ==> a < |m| && b < |m| && b in m[a]
    ensures forall c: set<nat> :: (forall a :: a in c ==> a < |m|) && (forall a, b :: a in c && b in c && a != b ==> a < |m| && b in m[a]) ==> |c| <= |k|
  {
    forall a, b | a in k && b in k && a != b
      ensures a < |m| && b < |m| && b in m[a]
    {
      assert Linked(m, a, b);
    }
    forall c: set<nat> | (forall a :: a in c ==> a < |m|) && (forall a, b :: a in c && b in c && a != b ==> a < |m| && b in m[a])
      ensures |c| <= |k|
    {
      assert AllLinked(m, c);
    }
  }

  /** The pairs of nodes that the symmetrizing loops have reached: rows below i, and of row i the columns below j. */
  predicate Reached(a: nat, b: nat, i: nat, j: nat) {
    var hi, lo := if a < b then b else a, if a < b then a else b;
    hi < i || (hi == i && lo < j)
  }

  ghost predicate Halved(now: seq<set<nat>>, m: seq<set<nat>>, i: nat, j: nat)
    requires |now| == |m|
  {
    forall a, b :: 0 <= a < |m| && 0 <= b < |m| ==>
      (b in now[a] <==> if Reached(a, b, i, j) then Linked(m, a, b) else b in m[a])
  }

  /** Leaves an edge iff both nodes see each other, in place. */
  method Symmetrize(matrix: array<set<nat>>)
    modifies matrix
    ensures forall a, b :: 0 <= a < matrix.Length && 0 <= b < matrix.Length ==>
                             (Adj(matrix[..], a, b) <==> Linked(old(matrix[..]), a, b))
    // an edge is left between two nodes exactly when each sees the other, and every node sees itself
    ensures forall a, b :: 0 <= a < matrix.Length && 0 <= b < matrix.Length && a != b ==>
                             (b in matrix[a] <==> b in old(matrix[a]) && a in old(matrix[b]))
    ensures forall a :: 0 <= a < matrix.Length ==> a in matrix[a]
  {
    ghost var m := matrix[..];
    for i := 0 to matrix.Length
      invariant Halved(matrix[..], m, i, 0)
    {
      for j := 0 to i
        invariant Halved(matrix[..], m, i, j)
      {
        assert matrix[..][j] == matrix[j] && matrix[..][i] == matrix[i];
        if i !in matrix[j] || j !in matrix[i] {
          matrix[i] := matrix[i] - {j};
          matrix[j] := matrix[j] - {i};
        }
      }
      matrix[i] := matrix[i] + {i};
    }
  }

  /** MtmGetConnectivityClique; `seen` is what this node, with id me, currently sees. */
  method GetConnectivityClique(connectivity: seq<set<nat>>, me: nat, seen: set<nat>) returns (clique: set<nat>)
    requires |connectivity| == MTM_MAX_NODES && 1 <= me <= MTM_MAX_NODES
    ensures AllLinked(connectivity[me - 1 := seen], clique)
    ensures forall c {:trigger AllLinked(connectivity[me - 1 := seen], c)} ::
              AllLinked(connectivity[me - 1 := seen], c) ==> |c| <= |clique|
    ensures |clique| == 1 ==> clique == {me - 1}
    // in words of the matrix: its members report each other, and no larger set does
    ensures var m := connectivity[me - 1 := seen];
            && (forall a, b :: a in clique && b in clique && a != b ==> a < |m| && b < |m| && b in m[a])
            && (forall c: set<nat> :: (forall a :: a in c ==> a < |m|) && (forall a, b :: a in c && b in c && a != b ==> a < |m| && b in m[a]) ==>
                  |c| <= |clique|)
  {
    ghost var m := connectivity[me - 1 := seen];
    var matrix := new set<nat>[MTM_MAX_NODES](i requires 0 <= i < |connectivity| => connectivity[i]);
    matrix[me - 1] := seen;
    assert matrix[..] == m;
    Symmetrize(matrix);
    var size;
    clique, size := FindMaxClique(matrix[..]);
    assert forall c :: AllLinked(m, c) <==> IsClique(matrix[..], c);
    MutualInWords(m, clique);
    if |clique| == 1 {
      clique := {me - 1};
    }
  }
}
