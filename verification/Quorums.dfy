/** Majority counting over a fixed set of configured nodes (src/multimaster.c). */
module Quorums {
  type NodeId = nat

  predicate Quorum(ntotal: nat, nvotes: nat): (r: bool)
    ensures r <==> 2 * nvotes > ntotal
  {
    nvotes >= ntotal / 2 + 1
  }

  predicate IsQuorum(conf: set<NodeId>, votes: set<NodeId>) {
    votes <= conf && Quorum(|conf|, |votes|)
  }

  /** Two majorities of the same configuration share a node. */
  lemma QuorumsMeet(conf: set<NodeId>, a: set<NodeId>, b: set<NodeId>) returns (y: NodeId)
    requires IsQuorum(conf, a) && IsQuorum(conf, b)
    ensures y in a && y in b && y in conf
  {
    if a * b == {} {
      assert |a + b| == |a| + |b|;
      SubsetSize(a + b, conf);
      assert false;
    }
    y :| y in a * b;
  }

  lemma SubsetSize<T>(a: set<T>, b: set<T>)
    requires a <= b
    ensures |a| <= |b|
  {
    assert b == a + (b - a);
  }
}
