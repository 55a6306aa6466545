/**
  Cliques, and the graph argument behind the search of Bron and Kerbosch (Algorithm 457, CACM 16(9)):
  exploring a pivot and its non-neighbours is enough, and a branch that cannot get larger than what
  is found may be pruned.  A nodemask_t is the set of its bits.
 */
module CliqueGraph {

  const MAX_NODES: nat := 64

  type Graph = seq<set<nat>>

  predicate Adj(g: Graph, u: nat, v: nat)
    requires u < |g|
  {
    v in g[u]
  }

  /** What the asserts of MtmFindMaxClique check: symmetric, with self loops. */
  ghost predicate IsGraph(g: Graph) {
    && |g| < MAX_NODES
    && (forall u, v :: 0 <= u < |g| && 0 <= v < |g| ==> (Adj(g, u, v) <==> Adj(g, v, u)))
    && (forall u :: 0 <= u < |g| ==> Adj(g, u, u))
  }

  predicate InGraph(g: Graph, s: set<nat>) {
    forall v :: v in s ==> v < |g|
  }

  predicate IsClique(g: Graph, k: set<nat>) {
    InGraph(g, k) && forall u, v {:trigger Adj(g, u, v)} :: u in k && v in k ==> Adj(g, u, v)
  }

  /** x sees all of k. */
  predicate SeesAll(g: Graph, x: nat, k: set<nat>)
    requires x < |g|
  {
    forall v :: v in k ==> Adj(g, x, v)
  }

  /** Some vertex of xs, outside k, could be added to the clique k. */
  predicate Extendable(g: Graph, k: set<nat>, xs: set<nat>)
    requires InGraph(g, xs)
  {
    exists x :: x in xs && x !in k && SeesAll(g, x, k)
  }

  /** Every clique made of r and members of p is no larger than size, unless x extends it. */
  ghost predicate Covered(g: Graph, r: set<nat>, p: set<nat>, x: set<nat>, size: nat)
    requires InGraph(g, x)
  {
    forall k {:trigger Extendable(g, k, x)} :: IsClique(g, k) && r <= k <= r + p && !Extendable(g, k, x) ==> |k| <= size
  }

  function Elems(s: seq<nat>): set<nat> {
    set v | v in s
  }

  /** No entry occurs twice. */
  predicate Distinct(s: seq<nat>) {
    |Elems(s)| == |s|
  }

  lemma ElemsConcat(a: seq<nat>, b: seq<nat>)
    ensures Elems(a + b) == Elems(a) + Elems(b)
  {
  }

  lemma {:induction false} ElemsSize(s: seq<nat>)
    ensures |Elems(s)| <= |s|
  {
    if s != [] {
      var init, last := s[..|s| - 1], s[|s| - 1];
      ElemsSize(init);
      assert Elems(s) == Elems(init) + {last};
    }
  }

  lemma Parts(r: seq<nat>, w: seq<nat>)
    requires Distinct(r + w)
    ensures Distinct(r) && Distinct(w) && Elems(r) !! Elems(w)
  {
    ElemsConcat(r, w);
    ElemsSize(r);
    ElemsSize(w);
    UnionSize(Elems(r), Elems(w));
  }

  lemma UnionSize(a: set<nat>, b: set<nat>)
    ensures |a + b| == |a| + |b| - |a * b|
    ensures |a + b| == |a| + |b| ==> a !! b
  {
    if v :| v in a && v in b {
      assert v in a * b;
    }
  }

  lemma Remainder(a: set<nat>, b: set<nat>, whole: set<nat>)
    requires a + b == whole && a !! b
    ensures b == whole - a
  {
  }

  lemma Whole(r: seq<nat>, w: seq<nat>)
    requires Distinct(r) && Distinct(w) && Elems(r) !! Elems(w)
    ensures Distinct(r + w)
  {
    ElemsConcat(r, w);
  }

  /** A list without repetition, cut at i. */
  lemma Cut(s: seq<nat>, i: nat)
    requires Distinct(s) && i <= |s|
    ensures Distinct(s[..i]) && Distinct(s[i..]) && Elems(s[..i]) !! Elems(s[i..])
    ensures Elems(s) == Elems(s[..i]) + Elems(s[i..])
  {
    assert s == s[..i] + s[i..];
    Parts(s[..i], s[i..]);
    ElemsConcat(s[..i], s[i..]);
  }

  /** The members of s that v sees, in order. */
  function Neighbours(g: Graph, v: nat, s: seq<nat>): seq<nat>
    requires v < |g|
  {
    if s == [] then []
    else
      var rest, last := Neighbours(g, v, s[..|s| - 1]), s[|s| - 1];
      if Adj(g, v, last) then rest + [last] else rest
  }

  lemma {:induction false} NeighboursOf(g: Graph, v: nat, s: seq<nat>)
    requires v < |g|
    ensures Elems(Neighbours(g, v, s)) == (set u | u in Elems(s) && Adj(g, v, u))
    ensures |Neighbours(g, v, s)| <= |s|
    ensures Distinct(s) ==> Distinct(Neighbours(g, v, s))
  {
    if s != [] {
      var init, last := s[..|s| - 1], s[|s| - 1];
      NeighboursOf(g, v, init);
      assert s == init + [last];
      ElemsConcat(init, [last]);
      ElemsConcat(Neighbours(g, v, init), [last]);
      if Distinct(s) {
        Parts(init, [last]);
        if Adj(g, v, last) {
          Whole(Neighbours(g, v, init), [last]);
        }
      }
    }
  }

  lemma SubsetSize(a: set<nat>, b: set<nat>)
    requires a <= b
    ensures |a| <= |b|
  {
    assert b == a + (b - a);
  }

  lemma SameSize(a: set<nat>, b: set<nat>)
    requires a <= b && |a| == |b|
    ensures a == b
  {
    assert b == a + (b - a);
  }

  /** 0 .. n - 1 */
  function Below(n: nat): (s: set<nat>)
    ensures |s| == n && forall v: nat :: v in s <==> v < n
  {
    if n == 0 then {} else Below(n - 1) + {n - 1}
  }

  /** Every entry is a vertex of g. */
  predicate Vertices(g: Graph, s: seq<nat>)
    ensures Vertices(g, s) <==> InGraph(g, Elems(s))
  {
    assert forall i :: 0 <= i < |s| ==> s[i] in Elems(s);
    forall i :: 0 <= i < |s| ==> s[i] < |g|
  }

  /** A clique inside r + p is contained in one that no vertex of p extends. */
  lemma {:induction false} MaximalClique(g: Graph, k: set<nat>, p: set<nat>) returns (m: set<nat>)
    requires IsGraph(g) && IsClique(g, k) && InGraph(g, p)
    ensures IsClique(g, m) && k <= m <= k + p && !Extendable(g, m, p)
    decreases |p - k|
  {
    if Extendable(g, k, p) {
      var x :| x in p && x !in k && SeesAll(g, x, k);
      assert p - (k + {x}) < p - k;
      SubsetSize(p - (k + {x}), p - k - {x});
      m := MaximalClique(g, k + {x}, p);
    } else {
      m := k;
    }
  }

  /** Members of p the pivot does not see, and the pivot itself if it belongs to p. */
  function Branches(g: Graph, pivot: nat, p: set<nat>): set<nat>
    requires pivot < |g|
  {
    set v | v in p && (v == pivot || !Adj(g, pivot, v))
  }

  /** A clique that no vertex of p + x extends meets the branches of any pivot of p + x. */
  lemma PivotMeets(g: Graph, r: set<nat>, p: set<nat>, x: set<nat>, pivot: nat, k: set<nat>)
    requires IsGraph(g) && InGraph(g, p) && InGraph(g, x) && pivot in p + x && pivot !in r
    requires SeesAll(g, pivot, r)
    requires IsClique(g, k) && r <= k <= r + p && !Extendable(g, k, p) && !Extendable(g, k, x)
    ensures k * Branches(g, pivot, p) != {}
  {
    if pivot in k {
      assert pivot in k * Branches(g, pivot, p);
    } else {
      assert !SeesAll(g, pivot, k);
      var v :| v in k && !Adj(g, pivot, v);
      assert v in k * Branches(g, pivot, p);
    }
  }

  /** Cliques maximal in p + x that contain an already processed branch are covered. */
  ghost predicate BranchesCovered(g: Graph, r: set<nat>, p: set<nat>, x: set<nat>, done: set<nat>, size: nat)
    requires InGraph(g, x) && InGraph(g, p)
  {
    forall k {:trigger Extendable(g, k, x)} ::
      IsClique(g, k) && r <= k <= r + p && !Extendable(g, k, p) && !Extendable(g, k, x) && k * done != {} ==> |k| <= size
  }

  /** One more branch v, explored on its neighbours. */
  lemma BranchStep(g: Graph, r: set<nat>, p: set<nat>, x: set<nat>, done: set<nat>, v: nat, p': set<nat>, x': set<nat>,
                   old_size: nat, size: nat)
    requires IsGraph(g) && InGraph(g, p) && InGraph(g, x) && done <= p && v in p - done
    requires p' == (set u | u in p - done - {v} && Adj(g, v, u))
    requires x' == (set u | u in x + done && Adj(g, v, u))
    requires BranchesCovered(g, r, p, x, done, old_size) && old_size <= size
    requires InGraph(g, x') && Covered(g, r + {v}, p', x', size)
    ensures BranchesCovered(g, r, p, x, done + {v}, size)
  {
    forall k | IsClique(g, k) && r <= k <= r + p && !Extendable(g, k, p) && !Extendable(g, k, x) && k * (done + {v}) != {}
      ensures |k| <= size
    {
      if k * done == {} {
        assert v in k;
        assert k <= (r + {v}) + p';
        assert !Extendable(g, k, x');
      }
    }
  }

  /** All branches of a pivot explored. */
  lemma BranchesSuffice(g: Graph, r: set<nat>, p: set<nat>, x: set<nat>, pivot: nat, size: nat)
    requires IsGraph(g) && InGraph(g, p) && InGraph(g, x) && pivot in p + x && pivot !in r && SeesAll(g, pivot, r)
    requires BranchesCovered(g, r, p, x, Branches(g, pivot, p), size)
    ensures Covered(g, r, p, x, size)
  {
    forall k | IsClique(g, k) && r <= k <= r + p && !Extendable(g, k, x)
      ensures |k| <= size
    {
      var m := MaximalClique(g, k, p);
      SubsetSize(k, m);
      PivotMeets(g, r, p, x, pivot, m);
    }
  }

  /** Nothing is left to add: the branch is r itself, or x extends everything. */
  lemma LeafCovered(g: Graph, r: set<nat>, x: set<nat>, size: nat)
    requires InGraph(g, x) && (|r| <= size || exists u :: u in x && u !in r && SeesAll(g, u, r))
    ensures Covered(g, r, {}, x, size)
  {
    forall k | IsClique(g, k) && r <= k <= r + {} && !Extendable(g, k, x)
      ensures |k| <= size
    {
      assert k == r;
    }
  }

  /** A branch that cannot beat what is already found. */
  lemma PrunedCovered(g: Graph, r: set<nat>, p: set<nat>, x: set<nat>, size: nat)
    requires InGraph(g, x) && |r| + |p| <= size
    ensures Covered(g, r, p, x, size)
  {
    forall k | IsClique(g, k) && r <= k <= r + p
      ensures |k| <= size
    {
      SubsetSize(k, r + p);
      assert r + p == r + (p - r);
      SubsetSize(p - r, p);
    }
  }
}
