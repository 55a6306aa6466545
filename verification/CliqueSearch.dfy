/**
  The search of src/bkb.c as functions on values, with its pivot, its swaps and its pruning, and the
  proof that it covers every clique.  MaxClique holds the methods that do it in place.
 */
module CliqueSearch {
  import opened CliqueGraph

  /** _list_to_nodemask as a number; the nodes of a list are distinct. */
  function MaskValue(s: seq<nat>): nat {
    if s == [] then 0 else MaskValue(s[..|s| - 1]) + Pow2(s[|s| - 1])
  }

  function Pow2(n: nat): nat {
    if n == 0 then 1 else 2 * Pow2(n - 1)
  }

  /** Vertices of old[ne..j] that p does not see. */
  function Unseen(g: Graph, p: nat, old_: seq<nat>, ne: nat, j: nat): set<nat>
    requires p < |g| && ne <= j <= |old_|
  {
    set v | v in old_[ne..j] && !Adj(g, p, v)
  }

  /** Their number. */
  function UnseenCount(g: Graph, p: nat, old_: seq<nat>, ne: nat, j: nat): nat
    requires p < |g| && ne <= j <= |old_|
  {
    if j == ne then 0 else UnseenCount(g, p, old_, ne, j - 1) + if Adj(g, p, old_[j - 1]) then 0 else 1
  }

  lemma {:induction false} UnseenCounted(g: Graph, p: nat, old_: seq<nat>, ne: nat, j: nat)
    requires p < |g| && ne <= j <= |old_| && Distinct(old_)
    ensures UnseenCount(g, p, old_, ne, j) == |Unseen(g, p, old_, ne, j)|
  {
    if ne < j {
      UnseenCounted(g, p, old_, ne, j - 1);
      UnseenStep(g, p, old_, ne, j - 1);
    }
  }

  lemma UnseenStep(g: Graph, p: nat, old_: seq<nat>, ne: nat, j: nat)
    requires p < |g| && ne <= j < |old_| && Distinct(old_)
    ensures Unseen(g, p, old_, ne, j + 1) ==
              if Adj(g, p, old_[j]) then Unseen(g, p, old_, ne, j) else Unseen(g, p, old_, ne, j) + {old_[j]}
    ensures old_[j] !in Unseen(g, p, old_, ne, j)
  {
    assert old_[ne..j + 1] == old_[ne..j] + [old_[j]];
    Cut(old_, j);
    assert old_[j] == old_[j..][0] && old_[j] in Elems(old_[j..]);
    assert forall v :: v in old_[ne..j] ==> v in Elems(old_[..j]);
  }

  /** At least the pivot itself is seen, or x is not empty. */
  lemma UnseenFew(g: Graph, p: nat, old_: seq<nat>, ne: nat, ce: nat)
    requires IsGraph(g) && p < |g| && ne <= ce == |old_| && Distinct(old_) && ce > 0
    requires ne == 0 ==> p in old_
    ensures |Unseen(g, p, old_, ne, ce)| < ce
  {
    var all := Elems(old_[ne..]);
    Cut(old_, ne);
    assert old_[ne..ce] == old_[ne..];
    if ne == 0 {
      assert p in all && p !in Unseen(g, p, old_, ne, ce);
      SubsetSize(Unseen(g, p, old_, ne, ce), all - {p});
    } else {
      SubsetSize(Unseen(g, p, old_, ne, ce), all);
    }
  }

  /** The outcome of pivot selection: index fi of the pivot, the number of branches, and the first. */
  ghost predicate PivotChosen(g: Graph, old_: seq<nat>, ne: nat, fi: nat, minnod: nat, nod: nat, s: int)
    requires ne <= |old_| && Vertices(g, old_)
  {
    && fi < |old_|
    && minnod == |Unseen(g, old_[fi], old_, ne, |old_|)|
    && nod == (if fi < ne then 0 else 1)
    && (if fi < ne then minnod > 0 ==> ne <= s < |old_| && !Adj(g, old_[fi], old_[s]) else s == fi)
  }

  // ----- the pivot -----

  /** The last vertex of w[ne..j] that p does not see, -1 if it sees them all. */
  function LastUnseen(g: Graph, p: nat, w: seq<nat>, ne: nat, j: nat): int
    requires p < |g| && ne <= j <= |w|
  {
    if j == ne then -1 else if !Adj(g, p, w[j - 1]) then j - 1 else LastUnseen(g, p, w, ne, j - 1)
  }

  lemma {:induction false} LastUnseenIs(g: Graph, p: nat, w: seq<nat>, ne: nat, j: nat)
    requires p < |g| && ne <= j <= |w| && UnseenCount(g, p, w, ne, j) > 0
    ensures ne <= LastUnseen(g, p, w, ne, j) < j && !Adj(g, p, w[LastUnseen(g, p, w, ne, j)])
  {
    if Adj(g, p, w[j - 1]) {
      LastUnseenIs(g, p, w, ne, j - 1);
    }
  }

  /** The state of the pivot loop: pivot, its non-neighbours in P, whether it is in P itself, the first branch, and the pivot's index. */
  datatype Pick = Pick(fixp: nat, minnod: nat, nod: nat, s: int, fi: nat)

  /** One turn of the pivot loop. */
  function Compared(g: Graph, w: seq<nat>, ne: nat, i: nat, best: Pick): Pick
    requires ne <= |w| && Vertices(g, w) && i < |w|
  {
    var cnt := UnseenCount(g, w[i], w, ne, |w|);
    if cnt >= best.minnod then best
    else if i < ne then Pick(w[i], cnt, best.nod, LastUnseen(g, w[i], w, ne, |w|), i)
    else Pick(w[i], cnt, 1, i, i)
  }

  function PickFrom(g: Graph, w: seq<nat>, ne: nat, i: nat, best: Pick): (pk: Pick)
    requires ne <= |w| && Vertices(g, w) && i <= |w|
    ensures best.fixp < |g| ==> pk.fixp < |g|
    decreases |w| - i
  {
    if i == |w| || best.minnod == 0 then best else PickFrom(g, w, ne, i + 1, Compared(g, w, ne, i, best))
  }

  const NO_PICK: int := -1

  function FirstPick(w: seq<nat>): Pick {
    Pick(0, |w|, 0, NO_PICK, 0)
  }

  function PickPivot(g: Graph, w: seq<nat>, ne: nat): (pk: Pick)
    requires ne <= |w| && Vertices(g, w)
    ensures w != [] ==> pk.fixp < |g|
  {
    assert w != [] ==> w[0] < |g|;
    PickFrom(g, w, ne, 0, FirstPick(w))
  }

  /** What holds of the best candidate among the first i. */
  ghost predicate BestSoFar(g: Graph, w: seq<nat>, ne: nat, i: nat, best: Pick)
    requires ne <= |w| && Vertices(g, w) && i <= |w|
  {
    if i == 0 then best == FirstPick(w)
    else
      && best.fi < i && best.fixp == w[best.fi] && PivotChosen(g, w, ne, best.fi, best.minnod, best.nod, best.s)
      && forall j {:trigger w[j]} :: 0 <= j < i ==> best.minnod <= UnseenCount(g, w[j], w, ne, |w|)
  }

  lemma ComparedIsBest(g: Graph, w: seq<nat>, ne: nat, i: nat, best: Pick)
    requires IsGraph(g) && ne <= |w| && Vertices(g, w) && Distinct(w) && i < |w| && BestSoFar(g, w, ne, i, best)
    ensures BestSoFar(g, w, ne, i + 1, Compared(g, w, ne, i, best))
  {
    var p := w[i];
    UnseenCounted(g, p, w, ne, |w|);
    if i == 0 {
      UnseenFew(g, p, w, ne, |w|);
    }
    if UnseenCount(g, p, w, ne, |w|) > 0 {
      LastUnseenIs(g, p, w, ne, |w|);
    }
  }

  lemma {:induction false} PickFromIsBest(g: Graph, w: seq<nat>, ne: nat, i: nat, best: Pick)
    requires IsGraph(g) && ne <= |w| && Vertices(g, w) && Distinct(w) && i <= |w| && w != [] && BestSoFar(g, w, ne, i, best)
    ensures BestSoFar(g, w, ne, |w|, PickFrom(g, w, ne, i, best))
    decreases |w| - i
  {
    if i < |w| && best.minnod != 0 {
      ComparedIsBest(g, w, ne, i, best);
      PickFromIsBest(g, w, ne, i + 1, Compared(g, w, ne, i, best));
    }
  }

  /** The pivot is a candidate with the fewest branches. */
  lemma PivotIsBest(g: Graph, w: seq<nat>, ne: nat)
    requires IsGraph(g) && ne <= |w| && Vertices(g, w) && Distinct(w) && w != []
    ensures BestSoFar(g, w, ne, |w|, PickPivot(g, w, ne))
  {
    PickFromIsBest(g, w, ne, 0, FirstPick(w));
  }

  // ----- candidates and branches -----

  /** r is a clique all of whose vertices see every candidate in w, and nothing is listed twice. */
  predicate Candidates(g: Graph, r: seq<nat>, w: seq<nat>) {
    && Vertices(g, w) && Distinct(r + w) && IsClique(g, Elems(r))
    && (forall u, v {:trigger Adj(g, v, u)} :: u in r && v in w && v < |g| ==> Adj(g, v, u))
  }

  ghost predicate CliqueList(g: Graph, r: seq<nat>) {
    Distinct(r) && IsClique(g, Elems(r))
  }

  /** There are at most |g| distinct vertices. */
  lemma Bounded(g: Graph, r: seq<nat>, w: seq<nat>)
    requires Candidates(g, r, w)
    ensures |r| + |w| <= |g|
  {
    forall v | v in r + w
      ensures v < |g|
    {
      if v in r {
        assert v in Elems(r);
      }
    }
    SubsetSize(Elems(r + w), Below(|g|));
  }

  /** w without w[i], filtered on both sides of it. */
  lemma DescendLists(g: Graph, w: seq<nat>, i: nat)
    requires i < |w| && w[i] < |g| && Distinct(w)
    ensures var xs, ps := Neighbours(g, w[i], w[..i]), Neighbours(g, w[i], w[i + 1..]);
            && Distinct([w[i]] + (xs + ps)) && |ps| <= |w| - i - 1
            && Elems(xs + ps) <= (set u | u in Elems(w) && Adj(g, w[i], u))
  {
    var sel, left, right := w[i], w[..i], w[i + 1..];
    var xs, ps := Neighbours(g, sel, left), Neighbours(g, sel, right);
    NeighboursOf(g, sel, left);
    NeighboursOf(g, sel, right);
    assert w == left + ([sel] + right);
    Parts(left, [sel] + right);
    Parts([sel], right);
    ElemsConcat([sel], right);
    ElemsConcat(left, [sel] + right);
    Whole(xs, ps);
    ElemsConcat(xs, ps);
    Whole([sel], xs + ps);
  }

  /** Descending to the neighbours of w[ne]. */
  lemma Descend(g: Graph, r: seq<nat>, w: seq<nat>, ne: nat)
    requires IsGraph(g) && Candidates(g, r, w) && ne < |w|
    ensures Candidates(g, r + [w[ne]], Neighbours(g, w[ne], w[..ne]) + Neighbours(g, w[ne], w[ne + 1..]))
    ensures |r| + 1 <= |g| && |Neighbours(g, w[ne], w[ne + 1..])| <= |w| - ne - 1
  {
    Bounded(g, r, w);
    Parts(r, w);
    var sel := w[ne];
    var next := Neighbours(g, sel, w[..ne]) + Neighbours(g, sel, w[ne + 1..]);
    DescendLists(g, w, ne);
    ElemsConcat([sel], next);
    Whole(r, [sel] + next);
    assert r + ([sel] + next) == (r + [sel]) + next;
    assert Elems(r + [sel]) == Elems(r) + {sel};
    forall u, v | u in r + [sel] && v in next
      ensures v < |g| && Adj(g, v, u)
    {
      assert v in Elems(next) && v in Elems(w);
    }
  }

  /** A branch that extend does not descend into. */
  lemma NotDescended(g: Graph, r: seq<nat>, xs: seq<nat>, ps: seq<nat>, size: nat)
    requires Candidates(g, r, xs + ps)
    requires |r| + |ps| <= size || (ps == [] && xs != [])
    ensures InGraph(g, Elems(xs)) && Covered(g, Elems(r), Elems(ps), Elems(xs), size)
  {
    Parts(r, xs + ps);
    Parts(xs, ps);
    assert Elems(xs) <= Elems(xs + ps);
    if |r| + |ps| <= size {
      PrunedCovered(g, Elems(r), Elems(ps), Elems(xs), size);
    } else {
      var u := xs[0];
      assert (xs + ps)[0] == u;
      assert u in Elems(xs) && u in Elems(xs + ps) && SeesAll(g, u, Elems(r));
      LeafCovered(g, Elems(r), Elems(xs), size);
      assert Elems(ps) == {};
    }
  }

  function Swapped(w: seq<nat>, i: nat, j: nat): seq<nat>
    requires i < |w| && j < |w|
  {
    w[i := w[j]][j := w[i]]
  }

  /** w still lists X first, then the branches already processed, then the rest of P. */
  ghost predicate Layout(start: seq<nat>, w: seq<nat>, ne0: nat, ne: nat) {
    && |w| == |start| && ne0 <= ne <= |w| && Distinct(w)
    && w[..ne0] == start[..ne0] && Elems(w[ne0..]) == Elems(start[ne0..])
  }

  lemma SwapElems(w: seq<nat>, i: nat, j: nat)
    requires i < |w| && j < |w|
    ensures Elems(Swapped(w, i, j)) == Elems(w)
    ensures Distinct(w) ==> Distinct(Swapped(w, i, j))
  {
    var u := Swapped(w, i, j);
    forall v | v in w
      ensures v in u
    {
      var k :| 0 <= k < |w| && w[k] == v;
      assert u[if k == i then j else if k == j then i else k] == v;
    }
  }

  lemma SwapLayout(start: seq<nat>, w: seq<nat>, ne0: nat, ne: nat, s: nat)
    requires Layout(start, w, ne0, ne) && ne <= s < |w|
    ensures Layout(start, Swapped(w, s, ne), ne0, ne + 1)
    ensures Swapped(w, s, ne)[..ne] == w[..ne]
  {
    SwapElems(w, s, ne);
    assert Swapped(w, s, ne)[..ne0] == w[..ne0];
    SwapElems(w[ne0..], s - ne0, ne - ne0);
    assert Swapped(w, s, ne)[ne0..] == Swapped(w[ne0..], s - ne0, ne - ne0);
  }

  lemma LayoutElems(start: seq<nat>, w: seq<nat>, ne0: nat, ne: nat)
    requires Layout(start, w, ne0, ne)
    ensures Elems(w) == Elems(start)
  {
    assert w == w[..ne0] + w[ne0..] && start == start[..ne0] + start[ne0..];
    ElemsConcat(w[..ne0], w[ne0..]);
    ElemsConcat(start[..ne0], start[ne0..]);
  }

  /** The three zones of w: X, processed branches, remaining candidates. */
  lemma Zones(start: seq<nat>, w: seq<nat>, ne0: nat, ne: nat)
    requires Layout(start, w, ne0, ne)
    ensures Elems(w[..ne]) == Elems(start[..ne0]) + Elems(w[ne0..ne])
    ensures Elems(w[ne..]) == Elems(start[ne0..]) - Elems(w[ne0..ne])
    ensures |Elems(w[ne0..ne])| == ne - ne0 && Elems(w[ne0..ne]) <= Elems(start[ne0..])
  {
    var done, left := w[ne0..ne], w[ne..];
    assert w[..ne] == w[..ne0] + done;
    ElemsConcat(w[..ne0], done);
    assert w[ne0..] == done + left;
    ElemsConcat(done, left);
    Cut(w, ne0);
    Parts(done, left);
    Remainder(Elems(done), Elems(left), Elems(start[ne0..]));
  }

  /** Of the branches, those in done are processed; k remain, the next one at s. */
  ghost predicate Remaining(start: seq<nat>, w: seq<nat>, ne0: nat, ne: nat, branches: set<nat>, pivot: nat, k: nat, s: int, done: set<nat>)
    requires ne0 <= |start|
  {
    && Layout(start, w, ne0, ne)
    && done <= branches && |branches| == k + ne - ne0
    && (k >= 1 ==> ne <= s < |w| && w[s] in branches)
    && (pivot in start[ne0..] ==> pivot in done || (k >= 1 && w[s] == pivot))
  }

  /** What the branching loop keeps; used by naming Remaining. */
  ghost predicate Branching(start: seq<nat>, w: seq<nat>, ne0: nat, ne: nat, branches: set<nat>, pivot: nat, k: nat, s: int) {
    && ne0 <= |start| && ne0 <= ne <= |w|
    && forall done {:trigger Remaining(start, w, ne0, ne, branches, pivot, k, s, done)} ::
         done == Elems(w[ne0..ne]) ==> Remaining(start, w, ne0, ne, branches, pivot, k, s, done)
  }

  lemma StartsInX(g: Graph, start: seq<nat>, ne: nat, fi: nat, minnod: nat, nod: nat, s: int)
    requires ne <= |start| && Distinct(start) && Vertices(g, start) && PivotChosen(g, start, ne, fi, minnod, nod, s)
    requires fi < ne
    ensures Branching(start, start, ne, ne, Branches(g, start[fi], Elems(start[ne..])), start[fi], minnod + nod, s)
  {
    var pivot := start[fi];
    Cut(start, ne);
    assert start[..ne][fi] == pivot && pivot in Elems(start[..ne]);
    assert start[ne..|start|] == start[ne..];
    assert pivot !in start[ne..];
    assert Branches(g, pivot, Elems(start[ne..])) == Unseen(g, pivot, start, ne, |start|);
    if minnod > 0 {
      assert start[ne..][s - ne] == start[s];
    }
  }

  lemma StartsInP(g: Graph, start: seq<nat>, ne: nat, fi: nat, minnod: nat, nod: nat, s: int)
    requires IsGraph(g) && ne <= |start| && Distinct(start) && Vertices(g, start)
    requires PivotChosen(g, start, ne, fi, minnod, nod, s) && fi >= ne
    ensures Branching(start, start, ne, ne, Branches(g, start[fi], Elems(start[ne..])), start[fi], minnod + nod, s)
  {
    var pivot, unseen := start[fi], Unseen(g, start[fi], start, ne, |start|);
    assert start[ne..|start|] == start[ne..];
    assert start[ne..][fi - ne] == pivot && pivot in start[ne..];
    assert Branches(g, pivot, Elems(start[ne..])) == unseen + {pivot};
    assert pivot !in unseen;
  }

  /** One branch processed: where the swapped list stands. */
  lemma BranchingStep(start: seq<nat>, w: seq<nat>, ne0: nat, ne: nat, branches: set<nat>, pivot: nat, k: nat, s: int)
    requires Branching(start, w, ne0, ne, branches, pivot, k, s) && k >= 1
    ensures 0 <= s < |w| && ne < |w|
    ensures var w' := Swapped(w, s, ne);
            && Layout(start, w', ne0, ne + 1)
            && Elems(w'[ne0..ne + 1]) == Elems(w[ne0..ne]) + {w[s]}
            && Elems(w'[ne0..ne + 1]) <= branches && |branches| == k + ne - ne0
            && (pivot in start[ne0..] ==> pivot in Elems(w'[ne0..ne + 1]))
  {
    assert Remaining(start, w, ne0, ne, branches, pivot, k, s, Elems(w[ne0..ne]));
    SwapLayout(start, w, ne0, ne, s);
    SwapDone(w, ne0, ne, s);
  }

  /** After the swap, what the branch chooses from is the rest of P. */
  lemma SwapRest(start: seq<nat>, w: seq<nat>, ne0: nat, ne: nat, s: nat)
    requires Layout(start, w, ne0, ne) && ne <= s < |w|
    ensures Elems(Swapped(w, s, ne)[ne + 1..]) == Elems(start[ne0..]) - Elems(w[ne0..ne]) - {w[s]}
  {
    SwapLayout(start, w, ne0, ne, s);
    SwapDone(w, ne0, ne, s);
    Zones(start, Swapped(w, s, ne), ne0, ne + 1);
    Rest(Elems(start[ne0..]), Elems(w[ne0..ne]), w[s]);
  }

  /** And what may extend it is X with the processed branches. */
  lemma SwapX(start: seq<nat>, w: seq<nat>, ne0: nat, ne: nat, s: nat)
    requires Layout(start, w, ne0, ne) && ne <= s < |w|
    ensures Elems(Swapped(w, s, ne)[..ne]) == Elems(start[..ne0]) + Elems(w[ne0..ne])
    ensures w[s] in Elems(start[ne0..]) - Elems(w[ne0..ne]) && Elems(w[ne0..ne]) <= Elems(start[ne0..])
  {
    SwapLayout(start, w, ne0, ne, s);
    Zones(start, w, ne0, ne);
    assert w[ne..][s - ne] == w[s];
  }

  lemma Rest(p: set<nat>, done: set<nat>, v: nat)
    ensures p - (done + {v}) == p - done - {v}
  {
  }

  lemma SwapDone(w: seq<nat>, ne0: nat, ne: nat, s: nat)
    requires ne0 <= ne <= s < |w|
    ensures Elems(Swapped(w, s, ne)[ne0..ne + 1]) == Elems(w[ne0..ne]) + {w[s]}
  {
    assert Swapped(w, s, ne)[ne0..ne + 1] == w[ne0..ne] + [w[s]];
    ElemsConcat(w[ne0..ne], [w[s]]);
  }

  lemma BranchCovers(g: Graph, r: seq<nat>, start: seq<nat>, w: seq<nat>, ne0: nat, ne: nat, s: nat, size: nat, size': nat)
    requires IsGraph(g) && Layout(start, w, ne0, ne) && ne <= s < |w| && Vertices(g, start) && w[s] < |g| && size <= size'
    requires InGraph(g, Elems(start[ne0..])) && InGraph(g, Elems(start[..ne0]))
    requires BranchesCovered(g, Elems(r), Elems(start[ne0..]), Elems(start[..ne0]), Elems(w[ne0..ne]), size)
    requires var w' := Swapped(w, s, ne);
             var xs, ps := Neighbours(g, w[s], w'[..ne]), Neighbours(g, w[s], w'[ne + 1..]);
             InGraph(g, Elems(xs)) && Covered(g, Elems(r + [w[s]]), Elems(ps), Elems(xs), size')
    ensures BranchesCovered(g, Elems(r), Elems(start[ne0..]), Elems(start[..ne0]), Elems(w[ne0..ne]) + {w[s]}, size')
  {
    SwapRest(start, w, ne0, ne, s);
    SwapX(start, w, ne0, ne, s);
    NeighboursOf(g, w[s], Swapped(w, s, ne)[..ne]);
    NeighboursOf(g, w[s], Swapped(w, s, ne)[ne + 1..]);
    ElemsConcat(r, [w[s]]);
    assert Elems([w[s]]) == {w[s]};
    var w' := Swapped(w, s, ne);
    BranchStep(g, Elems(r), Elems(start[ne0..]), Elems(start[..ne0]), Elems(w[ne0..ne]), w[s],
      Elems(Neighbours(g, w[s], w'[ne + 1..])), Elems(Neighbours(g, w[s], w'[..ne])), size, size');
  }

  /** While branches remain, P still holds a vertex that the pivot does not see. */
  lemma NextExists(g: Graph, start: seq<nat>, w: seq<nat>, ne0: nat, ne: nat, pivot: nat) returns (t: nat)
    requires pivot < |g| && Layout(start, w, ne0, ne)
    requires Elems(w[ne0..ne]) <= Branches(g, pivot, Elems(start[ne0..]))
    requires |Branches(g, pivot, Elems(start[ne0..]))| > ne - ne0
    requires pivot in start[ne0..] ==> pivot in Elems(w[ne0..ne])
    ensures ne <= t < |w| && !Adj(g, pivot, w[t])
  {
    Zones(start, w, ne0, ne);
    var left := Branches(g, pivot, Elems(start[ne0..])) - Elems(w[ne0..ne]);
    assert Branches(g, pivot, Elems(start[ne0..])) == left + Elems(w[ne0..ne]);
    var v :| v in left;
    assert v in Elems(w[ne..]);
    t :| ne <= t < |w| && w[t] == v;
  }

  lemma SameCandidates(g: Graph, r: seq<nat>, start: seq<nat>, w: seq<nat>, ne0: nat, ne: nat)
    requires Candidates(g, r, start) && Layout(start, w, ne0, ne)
    ensures Candidates(g, r, w)
  {
    LayoutElems(start, w, ne0, ne);
    assert forall v :: v in w <==> v in Elems(w);
    Parts(r, start);
    Whole(r, w);
  }

  lemma ElemsSplit(g: Graph, w: seq<nat>, i: nat)
    requires i <= |w| && Vertices(g, w)
    ensures InGraph(g, Elems(w[i..])) && InGraph(g, Elems(w[..i]))
  {
    assert w == w[..i] + w[i..];
    ElemsConcat(w[..i], w[i..]);
  }

  lemma IsBranch(g: Graph, start: seq<nat>, w: seq<nat>, ne0: nat, ne: nat, pivot: nat, s: nat)
    requires Layout(start, w, ne0, ne) && ne <= s < |w| && pivot < |g| && !Adj(g, pivot, w[s])
    ensures w[s] in Branches(g, pivot, Elems(start[ne0..]))
  {
    assert w[ne0..][s - ne0] == w[s];
  }

  /** What the branching loop works on: the clique so far, the candidates as they came, and the pivot. */
  datatype Level = Level(g: Graph, r: seq<nat>, start: seq<nat>, ne: nat, pivot: nat, branches: set<nat>)

  ghost predicate WellPosed(level: Level) {
    && IsGraph(level.g) && Candidates(level.g, level.r, level.start) && level.ne <= |level.start| && level.pivot < |level.g|
    && InGraph(level.g, Elems(level.start[level.ne..])) && InGraph(level.g, Elems(level.start[..level.ne]))
    && level.branches == Branches(level.g, level.pivot, Elems(level.start[level.ne..]))
  }

  /** The branching loop's state: the list, the border of X and P, how many branches remain, and where the next one is. */
  datatype Progress = Progress(w: seq<nat>, ne: nat, k: nat, s: int)

  /** The branches already processed. */
  function Done(level: Level, at: Progress): set<nat>
    requires level.ne <= at.ne <= |at.w|
  {
    Elems(at.w[level.ne..at.ne])
  }

  /** The branches done are covered. */
  ghost predicate Covers(level: Level, size: nat, done: set<nat>) {
    && WellPosed(level)
    && BranchesCovered(level.g, Elems(level.r), Elems(level.start[level.ne..]), Elems(level.start[..level.ne]), done, size)
  }

  /** The loop stands at `at`, and the branches done are covered. */
  ghost predicate StandsAt(level: Level, size: nat, at: Progress, done: set<nat>) {
    Covers(level, size, done) && Branching(level.start, at.w, level.ne, at.ne, level.branches, level.pivot, at.k, at.s)
  }

  /** Where the branching loop stands; used by naming StandsAt. */
  ghost predicate Halfway(level: Level, size: nat, at: Progress) {
    && level.ne <= at.ne <= |at.w|
    && forall done {:trigger StandsAt(level, size, at, done)} :: done == Done(level, at) ==> StandsAt(level, size, at, done)
  }

  /** The branch at s has been covered too; used by naming Covers. */
  ghost predicate Processed(level: Level, size: nat, at: Progress) {
    && level.ne <= at.ne <= at.s < |at.w|
    && forall done {:trigger Covers(level, size, done)} :: done == Done(level, at) + {at.w[at.s]} ==> Covers(level, size, done)
  }

  /** The vertex at s is a candidate, and the swapped list still lists the candidates. */
  lemma SwapReady(level: Level, size: nat, at: Progress)
    requires Halfway(level, size, at) && at.k >= 1
    ensures level.ne <= at.ne <= at.s < |at.w| == |level.start| && Candidates(level.g, level.r, Swapped(at.w, at.s, at.ne))
    ensures IsGraph(level.g) && at.w[at.s] < |level.g|
  {
    assert StandsAt(level, size, at, Done(level, at));
    assert Remaining(level.start, at.w, level.ne, at.ne, level.branches, level.pivot, at.k, at.s, Done(level, at));
    SwapLayout(level.start, at.w, level.ne, at.ne, at.s);
    SameCandidates(level.g, level.r, level.start, Swapped(at.w, at.s, at.ne), level.ne, at.ne + 1);
  }

  /** The branch explored from the swapped list is one more covered branch. */
  lemma VisitCovers(level: Level, size: nat, size': nat, at: Progress)
    requires Halfway(level, size, at) && at.k >= 1 && size <= size'
    requires 0 <= at.ne <= at.s < |at.w| && at.w[at.s] < |level.g|
    requires var w', sel := Swapped(at.w, at.s, at.ne), at.w[at.s];
             var xs, ps := Neighbours(level.g, sel, w'[..at.ne]), Neighbours(level.g, sel, w'[at.ne + 1..]);
             InGraph(level.g, Elems(xs)) && Covered(level.g, Elems(level.r + [sel]), Elems(ps), Elems(xs), size')
    ensures Processed(level, size', at)
  {
    assert StandsAt(level, size, at, Done(level, at));
    assert Remaining(level.start, at.w, level.ne, at.ne, level.branches, level.pivot, at.k, at.s, Done(level, at));
    BranchCovers(level.g, level.r, level.start, at.w, level.ne, at.ne, at.s, size, size');
  }

  lemma Starts(g: Graph, r: seq<nat>, start: seq<nat>, ne: nat, fi: nat, minnod: nat, nod: nat, s: int, size: nat)
    requires IsGraph(g) && ne <= |start| && Candidates(g, r, start) && Distinct(start)
    requires PivotChosen(g, start, ne, fi, minnod, nod, s)
    ensures var level := Level(g, r, start, ne, start[fi], Branches(g, start[fi], Elems(start[ne..])));
            WellPosed(level) && Halfway(level, size, Progress(start, ne, minnod + nod, s))
  {
    ElemsSplit(g, start, ne);
    if fi < ne {
      StartsInX(g, start, ne, fi, minnod, nod, s);
    } else {
      StartsInP(g, start, ne, fi, minnod, nod, s);
    }
    assert start[ne..ne] == [];
  }

  /** While branches remain after the one at s, one of them lies beyond the border, and the pivot does not see it. */
  lemma NextAfter(level: Level, size: nat, at: Progress) returns (t: nat)
    requires Halfway(level, size, at) && at.k > 1
    ensures 0 <= at.s < |at.w| && at.ne < |at.w| && level.pivot < |level.g|
    ensures var w' := Swapped(at.w, at.s, at.ne); at.ne < t < |w'| && !Adj(level.g, level.pivot, w'[t])
  {
    Opened(level, size, at);
    BranchingStep(level.start, at.w, level.ne, at.ne, level.branches, level.pivot, at.k, at.s);
    t := NextExists(level.g, level.start, Swapped(at.w, at.s, at.ne), level.ne, at.ne + 1, level.pivot);
  }

  lemma TurnBranching(start: seq<nat>, w: seq<nat>, w': seq<nat>, ne0: nat, ne: nat, branches: set<nat>, pivot: nat, k: nat, s: int, s': int)
    requires Branching(start, w, ne0, ne, branches, pivot, k, s) && k >= 1
    requires 0 <= s < |w| && ne < |w| && w' == Swapped(w, s, ne) && (k > 1 ==> ne < s' < |w| && w'[s'] in branches)
    ensures Branching(start, w', ne0, ne + 1, branches, pivot, k - 1, s') && Elems(w'[ne0..ne + 1]) == Elems(w[ne0..ne]) + {w[s]}
  {
    BranchingStep(start, w, ne0, ne, branches, pivot, k, s);
  }

  /** What Halfway says of the list. */
  lemma Opened(level: Level, size: nat, at: Progress)
    requires Halfway(level, size, at)
    ensures level.pivot < |level.g| && Branching(level.start, at.w, level.ne, at.ne, level.branches, level.pivot, at.k, at.s)
    ensures level.branches == Branches(level.g, level.pivot, Elems(level.start[level.ne..]))
  {
    assert StandsAt(level, size, at, Done(level, at));
  }

  lemma Stand(level: Level, size: nat, at: Progress, at': Progress)
    requires Processed(level, size, at) && Branching(level.start, at'.w, level.ne, at'.ne, level.branches, level.pivot, at'.k, at'.s)
    requires Done(level, at') == Done(level, at) + {at.w[at.s]}
    ensures Halfway(level, size, at')
  {
    assert Covers(level, size, Done(level, at'));
  }

  /** The next branch, where the search stopped. */
  lemma NextIsBranch(level: Level, size: nat, at: Progress, w': seq<nat>, s': int)
    requires Halfway(level, size, at) && at.k > 1 && 0 <= at.s < |at.w| && at.ne < |at.w| && w' == Swapped(at.w, at.s, at.ne)
    requires level.pivot < |level.g| && at.ne < s' < |at.w| && !Adj(level.g, level.pivot, w'[s'])
    ensures w'[s'] in level.branches
  {
    Opened(level, size, at);
    BranchingStep(level.start, at.w, level.ne, at.ne, level.branches, level.pivot, at.k, at.s);
    IsBranch(level.g, level.start, w', level.ne, at.ne + 1, level.pivot, s');
  }

  lemma TurnDone(level: Level, size: nat, size': nat, at: Progress, w': seq<nat>, s': int)
    requires Halfway(level, size, at) && at.k >= 1 && Processed(level, size', at) && w' == Swapped(at.w, at.s, at.ne)
    requires at.k > 1 ==> level.pivot < |level.g| && at.ne < s' < |at.w| && !Adj(level.g, level.pivot, w'[s'])
    ensures Halfway(level, size', Progress(w', at.ne + 1, at.k - 1, s'))
  {
    Opened(level, size, at);
    if at.k > 1 {
      NextIsBranch(level, size, at, w', s');
    }
    TurnBranching(level.start, at.w, w', level.ne, at.ne, level.branches, level.pivot, at.k, at.s, s');
    Stand(level, size', at, Progress(w', at.ne + 1, at.k - 1, s'));
  }

  lemma AllBranched(level: Level, w: seq<nat>, ne: nat, s: int, size: nat)
    requires WellPosed(level) && level.pivot in level.start && Halfway(level, size, Progress(w, ne, 0, s))
    ensures Covered(level.g, Elems(level.r), Elems(level.start[level.ne..]), Elems(level.start[..level.ne]), size)
  {
    var g, r, start, ne0, pivot := level.g, level.r, level.start, level.ne, level.pivot;
    var p, x, done := Elems(start[ne0..]), Elems(start[..ne0]), Elems(w[ne0..ne]);
    assert StandsAt(level, size, Progress(w, ne, 0, s), done);
    assert Remaining(start, w, ne0, ne, level.branches, pivot, 0, s, done);
    Zones(start, w, ne0, ne);
    SameSize(done, Branches(g, pivot, p));
    assert start == start[..ne0] + start[ne0..];
    ElemsConcat(start[..ne0], start[ne0..]);
    assert pivot in Elems(start);
    Parts(r, start);
    assert SeesAll(g, pivot, Elems(r));
    BranchesSuffice(g, Elems(r), p, x, pivot, size);
  }

  // ----- the search -----

  /** The next vertex, from s on, that the pivot does not see. */
  function NextUnseen(g: Graph, fixp: nat, w: seq<nat>, s: nat): (r: nat)
    requires fixp < |g|
    ensures s <= r
    decreases |w| - s
  {
    if s >= |w| || !Adj(g, fixp, w[s]) then s else NextUnseen(g, fixp, w, s + 1)
  }

  lemma {:induction false} NextUnseenFinds(g: Graph, fixp: nat, w: seq<nat>, s: nat, t: nat)
    requires fixp < |g| && s <= t < |w| && !Adj(g, fixp, w[t])
    ensures s <= NextUnseen(g, fixp, w, s) <= t && !Adj(g, fixp, w[NextUnseen(g, fixp, w, s)])
    decreases t - s
  {
    if Adj(g, fixp, w[s]) {
      NextUnseenFinds(g, fixp, w, s + 1, t);
    }
  }

  /** A leaf replaces the result if it is larger, or equally large with a smaller mask. */
  function Better(res: seq<nat>, leaf: seq<nat>): (r: seq<nat>)
    ensures (r == res || r == leaf) && |r| >= |res| && |r| >= |leaf|
    ensures |res| == |leaf| ==> MaskValue(r) <= MaskValue(res) && MaskValue(r) <= MaskValue(leaf)
    ensures |res| == |leaf| && MaskValue(res) == MaskValue(leaf) ==> r == res
  {
    if |res| < |leaf| || (|res| == |leaf| && MaskValue(res) > MaskValue(leaf)) then leaf else res
  }

  lemma SwapVertices(g: Graph, w: seq<nat>, i: nat, j: nat)
    requires Vertices(g, w) && i < |w| && j < |w|
    ensures Vertices(g, Swapped(w, i, j))
  {
    SwapElems(w, i, j);
  }

  lemma NewVertices(g: Graph, w: seq<nat>, ne: nat)
    requires Vertices(g, w) && ne < |w|
    ensures var xs, ps := Neighbours(g, w[ne], w[..ne]), Neighbours(g, w[ne], w[ne + 1..]);
            Vertices(g, xs + ps) && |ps| <= |w| - ne - 1
  {
    var sel := w[ne];
    NeighboursOf(g, sel, w[..ne]);
    NeighboursOf(g, sel, w[ne + 1..]);
    ElemsConcat(Neighbours(g, sel, w[..ne]), Neighbours(g, sel, w[ne + 1..]));
    ElemsSplit(g, w, ne);
    ElemsSplit(g, w, ne + 1);
  }

  /** extend: the result after exploring the cliques made of r and of P = w[ne..], with X = w[..ne]. */
  function Search(g: Graph, r: seq<nat>, res: seq<nat>, w: seq<nat>, ne: nat): seq<nat>
    requires ne <= |w| && Vertices(g, w)
    decreases |w| - ne, 2
  {
    if w == [] then res
    else
      var pk := PickPivot(g, w, ne);
      Loop(g, r, res, w, ne, pk.fixp, pk.minnod + pk.nod, pk.s)
  }

  /** The branching loop: k branches remain, the next one at s. */
  function Loop(g: Graph, r: seq<nat>, res: seq<nat>, w: seq<nat>, ne: nat, fixp: nat, k: nat, s: int): seq<nat>
    requires ne <= |w| && Vertices(g, w) && fixp < |g|
    decreases |w| - ne, 1
  {
    if k == 0 || s < ne || s >= |w| then res
    else
      SwapVertices(g, w, s, ne);
      var w' := Swapped(w, s, ne);
      Loop(g, r, Visited(g, r, res, w', ne), w', ne + 1, fixp, k - 1, if k > 1 then NextUnseen(g, fixp, w', ne + 1) else s)
  }

  /** One branch: w[ne] joins the clique. */
  function Visited(g: Graph, r: seq<nat>, res: seq<nat>, w: seq<nat>, ne: nat): seq<nat>
    requires ne < |w| && Vertices(g, w)
    decreases |w| - ne, 0
  {
    NewVertices(g, w, ne);
    var sel := w[ne];
    var xs, ps := Neighbours(g, sel, w[..ne]), Neighbours(g, sel, w[ne + 1..]);
    if xs + ps == [] then Better(res, r + [sel])
    else if ps != [] && |r| + 1 + |ps| > |res| then Search(g, r + [sel], res, xs + ps, |xs|)
    else res
  }

  // ----- it covers every clique -----

  lemma VisitedCovers(g: Graph, r: seq<nat>, res: seq<nat>, w: seq<nat>, ne: nat)
    requires IsGraph(g) && Candidates(g, r, w) && ne < |w| && CliqueList(g, res)
    ensures CliqueList(g, Visited(g, r, res, w, ne)) && |Visited(g, r, res, w, ne)| >= |res|
    ensures var xs, ps := Neighbours(g, w[ne], w[..ne]), Neighbours(g, w[ne], w[ne + 1..]);
            InGraph(g, Elems(xs)) && Covered(g, Elems(r + [w[ne]]), Elems(ps), Elems(xs), |Visited(g, r, res, w, ne)|)
    decreases |w| - ne, 0
  {
    var sel := w[ne];
    var xs, ps := Neighbours(g, sel, w[..ne]), Neighbours(g, sel, w[ne + 1..]);
    NewVertices(g, w, ne);
    Descend(g, r, w, ne);
    Parts(r + [sel], xs + ps);
    if ps != [] && |r| + 1 + |ps| > |res| {
      assert (xs + ps)[|xs|..] == ps && (xs + ps)[..|xs|] == xs;
      SearchCovers(g, r + [sel], res, xs + ps, |xs|);
    } else {
      NotDescended(g, r + [sel], xs, ps, |Visited(g, r, res, w, ne)|);
    }
  }

  /** Where the loop stands after one turn. */
  function Advanced(g: Graph, fixp: nat, at: Progress): Progress
    requires fixp < |g| && at.ne <= at.s < |at.w| && at.k >= 1
  {
    var w' := Swapped(at.w, at.s, at.ne);
    Progress(w', at.ne + 1, at.k - 1, if at.k > 1 then NextUnseen(g, fixp, w', at.ne + 1) else at.s)
  }

  lemma LoopTurn(level: Level, res: seq<nat>, at: Progress)
    requires WellPosed(level) && Halfway(level, |res|, at) && at.k >= 1 && CliqueList(level.g, res)
    ensures at.ne <= at.s < |at.w| && Vertices(level.g, Swapped(at.w, at.s, at.ne))
    ensures var res' := Visited(level.g, level.r, res, Swapped(at.w, at.s, at.ne), at.ne);
            CliqueList(level.g, res') && |res'| >= |res| && Halfway(level, |res'|, Advanced(level.g, level.pivot, at))
    decreases |at.w| - at.ne, 1
  {
    SwapReady(level, |res|, at);
    var w' := Swapped(at.w, at.s, at.ne);
    VisitedCovers(level.g, level.r, res, w', at.ne);
    var size' := |Visited(level.g, level.r, res, w', at.ne)|;
    VisitCovers(level, |res|, size', at);
    if at.k > 1 {
      var t := NextAfter(level, |res|, at);
      NextUnseenFinds(level.g, level.pivot, w', at.ne + 1, t);
    }
    TurnDone(level, |res|, size', at, w', Advanced(level.g, level.pivot, at).s);
  }

  lemma LoopCovers(level: Level, res: seq<nat>, at: Progress)
    requires WellPosed(level) && level.pivot in level.start && Halfway(level, |res|, at) && Vertices(level.g, at.w) && CliqueList(level.g, res)
    ensures var out := Loop(level.g, level.r, res, at.w, at.ne, level.pivot, at.k, at.s);
            && CliqueList(level.g, out) && |out| >= |res|
            && Covered(level.g, Elems(level.r), Elems(level.start[level.ne..]), Elems(level.start[..level.ne]), |out|)
    decreases |at.w| - at.ne, 2
  {
    if at.k == 0 {
      AllBranched(level, at.w, at.ne, at.s, |res|);
    } else {
      LoopTurn(level, res, at);
      LoopCovers(level, Visited(level.g, level.r, res, Swapped(at.w, at.s, at.ne), at.ne), Advanced(level.g, level.pivot, at));
    }
  }

  /** Every clique made of r and members of P is at most as large as the result, unless X extends it. */
  lemma SearchCovers(g: Graph, r: seq<nat>, res: seq<nat>, w: seq<nat>, ne: nat)
    requires IsGraph(g) && ne <= |w| && Candidates(g, r, w) && CliqueList(g, res) && (w != [] || r == [])
    ensures CliqueList(g, Search(g, r, res, w, ne)) && |Search(g, r, res, w, ne)| >= |res|
    ensures InGraph(g, Elems(w[..ne])) && Covered(g, Elems(r), Elems(w[ne..]), Elems(w[..ne]), |Search(g, r, res, w, ne)|)
    decreases |w| - ne, 3
  {
    if w == [] {
      NotDescended(g, r, w, w, |res|);
    } else {
      Parts(r, w);
      PivotIsBest(g, w, ne);
      var pk := PickPivot(g, w, ne);
      Starts(g, r, w, ne, pk.fi, pk.minnod, pk.nod, pk.s, |res|);
      var level := Level(g, r, w, ne, pk.fixp, Branches(g, pk.fixp, Elems(w[ne..])));
      LoopCovers(level, res, Progress(w, ne, pk.minnod + pk.nod, pk.s));
    }
  }
}
