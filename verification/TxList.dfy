/**
  The pool's list of transactions and syncpoints in arrival order (src/bgwpool.c): a doubly linked
  list inside a fixed array of slots.
 */
module TxList {

  /** 0 is a free slot, 1 a transaction, 2 a syncpoint. */
  datatype Elem = Elem(value: nat, prev: int, next: int)

  /** The entry after position i of the list, and before it; -1 at the ends. */
  function After(order: seq<nat>, i: int): int
    requires -1 <= i < |order|
  {
    if i + 1 < |order| then order[i + 1] else -1
  }

  function Before(order: seq<nat>, i: int): int
    requires 0 <= i <= |order|
  {
    if i > 0 then order[i - 1] else -1
  }

  function Without<T>(s: seq<T>, i: nat): seq<T>
    requires i < |s|
  {
    s[..i] + s[i + 1..]
  }

  ghost predicate Distinct(s: seq<nat>) {
    forall i, j :: 0 <= i < j < |s| ==> s[i] != s[j]
  }

  ghost predicate Increasing(s: seq<nat>) {
    forall i, j :: 0 <= i < j < |s| ==> s[i] < s[j]
  }

  lemma WithoutOrder(s: seq<nat>, i: nat)
    requires i < |s|
    ensures Distinct(s) ==> Distinct(Without(s, i)) && s[i] !in Without(s, i)
    ensures Increasing(s) ==> Increasing(Without(s, i))
    ensures forall v :: v in Without(s, i) ==> v in s
    ensures forall v :: v in s && v != s[i] ==> v in Without(s, i)
  {
    var r := Without(s, i);
    assert forall k :: 0 <= k < |r| ==> r[k] == s[if k < i then k else k + 1];
    forall v | v in s && v != s[i]
      ensures v in r
    {
      var k :| 0 <= k < |s| && s[k] == v;
      assert r[if k < i then k else k - 1] == v;
    }
  }

  /** The slots in order form one chain, and every other slot is free. */
  ghost predicate Linked(store: seq<Elem>, order: seq<nat>) {
    && Distinct(order)
    && (forall i {:trigger NodeOK(store, order, i)} :: 0 <= i < |order| ==> NodeOK(store, order, i))
    && (forall p {:trigger UsedOK(store, order, p)} :: 0 <= p < |store| ==> UsedOK(store, order, p))
  }

  predicate NodeOK(store: seq<Elem>, order: seq<nat>, i: nat)
    requires i < |order|
  {
    && order[i] < |store| && store[order[i]].value != 0
    && store[order[i]].prev == Before(order, i) && store[order[i]].next == After(order, i)
  }

  predicate UsedOK(store: seq<Elem>, order: seq<nat>, p: nat)
    requires p < |store|
  {
    store[p].value != 0 ==> p in order
  }

  /** All slots used means as many entries as slots. */
  lemma FullMeansAll(store: seq<Elem>, order: seq<nat>)
    requires Linked(store, order) && forall p :: 0 <= p < |store| ==> store[p].value != 0
    ensures |order| >= |store|
  {
    forall p | p in Slots(|store|)
      ensures p in order
    {
      assert UsedOK(store, order, p);
    }
    AtLeast(Slots(|store|), order);
  }

  /** Distinct slots of the array are at most as many as it has. */
  lemma AtMostSlots(store: seq<Elem>, order: seq<nat>)
    requires Linked(store, order)
    ensures |order| <= |store|
  {
    forall p | p in order
      ensures p in Slots(|store|)
    {
      var i :| 0 <= i < |order| && order[i] == p;
      assert NodeOK(store, order, i);
    }
    DistinctWithin(order, Slots(|store|));
  }

  lemma {:induction false} DistinctWithin(s: seq<nat>, a: set<nat>)
    requires Distinct(s) && forall p :: p in s ==> p in a
    ensures |s| <= |a|
  {
    if s != [] {
      var init, last := s[..|s| - 1], s[|s| - 1];
      assert last in a && a == (a - {last}) + {last};
      forall p | p in init
        ensures p in a - {last}
      {
        var i :| 0 <= i < |init| && init[i] == p;
        assert s[i] == p && s[|s| - 1] == last;
      }
      DistinctWithin(init, a - {last});
    }
  }

  /** A free slot means that not all are used. */
  lemma FreeMeansRoom(store: seq<Elem>, order: seq<nat>, pos: nat)
    requires Linked(store, order) && pos < |store| && store[pos].value == 0
    ensures |order| < |store|
  {
    var a := Slots(|store|) - {pos};
    assert Slots(|store|) == a + {pos};
    forall p | p in order
      ensures p in a
    {
      var i :| 0 <= i < |order| && order[i] == p;
      assert NodeOK(store, order, i);
    }
    DistinctWithin(order, a);
  }

  function Slots(n: nat): (s: set<nat>)
    ensures |s| == n && forall p: nat :: p in s <==> p < n
  {
    if n == 0 then {} else Slots(n - 1) + {n - 1}
  }

  lemma {:induction false} AtLeast(a: set<nat>, s: seq<nat>)
    requires forall p :: p in a ==> p in s
    ensures |a| <= |s|
  {
    if s == [] {
      assert a == {};
    } else {
      var init, last := s[..|s| - 1], s[|s| - 1];
      AtLeast(a - {last}, init);
      assert a <= (a - {last}) + {last};
      if last in a {
        assert a == (a - {last}) + {last};
      } else {
        assert a == a - {last};
      }
    }
  }

  lemma StoreLinked(was: seq<Elem>, now: seq<Elem>, order: seq<nat>, pos: nat, value: nat)
    requires Linked(was, order) && pos < |was| == |now| && was[pos].value == 0 && value != 0
    requires now[pos] == Elem(value, Before(order, |order|), -1)
    requires forall p :: 0 <= p < |was| && p != pos && p != Before(order, |order|) ==> now[p] == was[p]
    requires order != [] && order[|order| - 1] < |was| ==> now[order[|order| - 1]] == was[order[|order| - 1]].(next := pos)
    ensures pos !in order && Linked(now, order + [pos])
  {
    var order' := order + [pos];
    forall i | 0 <= i < |order|
      ensures order[i] != pos
    {
      assert NodeOK(was, order, i);
    }
    forall i | 0 <= i < |order'|
      ensures NodeOK(now, order', i)
    {
      if i < |order| {
        assert NodeOK(was, order, i);
      }
    }
    forall p | 0 <= p < |now|
      ensures UsedOK(now, order', p)
    {
      assert UsedOK(was, order, p);
    }
  }

  lemma RemoveNode(was: seq<Elem>, now: seq<Elem>, order: seq<nat>, i: nat, k: nat)
    requires Linked(was, order) && i < |order| && |was| == |now| && k + 1 < |order|
    requires forall p :: 0 <= p < |was| && p != order[i] && p != Before(order, i) && p != After(order, i) ==> now[p] == was[p]
    requires i > 0 && order[i - 1] < |was| ==> now[order[i - 1]] == was[order[i - 1]].(next := After(order, i))
    requires i + 1 < |order| && order[i + 1] < |was| ==> now[order[i + 1]] == was[order[i + 1]].(prev := Before(order, i))
    ensures NodeOK(now, Without(order, i), k)
  {
    var j := if k < i then k else k + 1;
    assert Without(order, i)[k] == order[j];
    assert NodeOK(was, order, j);
  }

  lemma RemoveLinked(was: seq<Elem>, now: seq<Elem>, order: seq<nat>, i: nat)
    requires Linked(was, order) && i < |order| && |was| == |now| && order[i] < |was| && now[order[i]].value == 0
    requires forall p :: 0 <= p < |was| && p != order[i] && p != Before(order, i) && p != After(order, i) ==> now[p] == was[p]
    requires i > 0 && order[i - 1] < |was| ==> now[order[i - 1]] == was[order[i - 1]].(next := After(order, i))
    requires i + 1 < |order| && order[i + 1] < |was| ==> now[order[i + 1]] == was[order[i + 1]].(prev := Before(order, i))
    ensures Linked(now, Without(order, i))
  {
    WithoutOrder(order, i);
    forall k | 0 <= k < |Without(order, i)|
      ensures NodeOK(now, Without(order, i), k)
    {
      RemoveNode(was, now, order, i, k);
    }
    forall p | 0 <= p < |now|
      ensures UsedOK(now, Without(order, i), p)
    {
      assert UsedOK(was, order, p);
    }
  }

  /** What the i-th entry of the list is. */
  function ValueAt(store: seq<Elem>, order: seq<nat>, i: nat): nat
    requires i < |order|
  {
    if order[i] < |store| then store[order[i]].value else 0
  }

  class List {
    const store: array<Elem>
    var head: int
    var tail: int
    var nelems: nat
    /** Used slots in arrival order, and the arrival numbers of what they hold. */
    ghost var order: seq<nat>
    ghost var tickets: seq<nat>
    /** How many entries have ever arrived. */
    ghost var arrived: nat

    ghost predicate Valid()
      reads this, store
    {
      && Linked(store[..], order)
      && head == After(order, -1) && tail == Before(order, |order|) && nelems == |order|
      && |tickets| == |order| && Increasing(tickets) && (forall t :: t in tickets ==> t < arrived)
    }

    /** txl_clear */
    constructor (size: nat)
      ensures Valid() && order == [] && arrived == 0 && store.Length == size && fresh(store)
    {
      store := new Elem[size](_ => Elem(0, 0, 0));
      head, tail, nelems := -1, -1, 0;
      order, tickets, arrived := [], [], 0;
    }

    /** The search for an empty position; store.Length, where the code asserts that it is not, exactly when the list is full. */
    method FindFree() returns (pos: nat)
      requires Valid()
      ensures pos <= store.Length && (pos < store.Length ==> store[pos].value == 0) && forall p :: 0 <= p < pos ==> store[p].value != 0
      ensures nelems <= store.Length && (pos == store.Length <==> nelems == store.Length)
    {
      pos := 0;
      while pos < store.Length && store[pos].value != 0
        invariant pos <= store.Length && forall p :: 0 <= p < pos ==> store[p].value != 0
      {
        pos := pos + 1;
      }
      AtMostSlots(store[..], order);
      if pos == store.Length {
        FullMeansAll(store[..], order);
      } else {
        FreeMeansRoom(store[..], order, pos);
      }
    }

    /** txl_store: appends to the list; false where a full list runs into the assertion, which process_syncpoint does not exclude. */
    method Store(value: nat) returns (ok: bool, pos: nat)
      requires Valid() && (value == 1 || value == 2)
      modifies this, store
      ensures Valid() && (ok <==> old(nelems) < store.Length)
      ensures !ok ==> order == old(order) && tickets == old(tickets) && arrived == old(arrived) && store[..] == old(store[..])
      ensures ok ==> pos < store.Length && pos !in old(order) && store[pos].value == value
      ensures ok ==> order == old(order) + [pos] && tickets == old(tickets) + [old(arrived)] && arrived == old(arrived) + 1
      ensures ok ==> forall p :: 0 <= p < store.Length && p != pos ==> store[p].value == old(store[p].value)
    {
      pos := FindFree();
      ok := pos < store.Length;
      if !ok {
        return;
      }
      ghost var was := store[..];
      if order != [] {
        assert NodeOK(was, order, |order| - 1);
      }
      store[pos] := Elem(value, tail, -1);
      if tail >= 0 {
        store[tail] := store[tail].(next := pos);
      }
      if head == -1 {
        head := pos;
      }
      tail := pos;
      nelems := nelems + 1;
      StoreLinked(was, store[..], order, pos, value);
      assert forall k :: 0 <= k < |tickets| ==> tickets[k] in tickets;
      order, tickets, arrived := order + [pos], tickets + [arrived], arrived + 1;
    }

    /** txl_remove: takes out the entry in slot pos, wherever it is. */
    method Remove(pos: int, ghost i: nat)
      requires Valid() && (pos == -1 || (i < |order| && order[i] == pos))
      modifies this, store
      ensures Valid() && arrived == old(arrived)
      ensures pos == -1 ==> order == old(order) && tickets == old(tickets) && store[..] == old(store[..])
      ensures pos != -1 ==> order == Without(old(order), i) && tickets == Without(old(tickets), i)
      ensures forall p :: 0 <= p < store.Length && p != pos ==> store[p].value == old(store[p].value)
    {
      if pos == -1 {
        return;
      }
      ghost var was := store[..];
      assert NodeOK(was, order, i);
      if i > 0 {
        assert NodeOK(was, order, i - 1);
      }
      if i + 1 < |order| {
        assert NodeOK(was, order, i + 1);
      }
      if pos != head {
        var ppos, npos := store[pos].prev, store[pos].next;
        store[ppos] := store[ppos].(next := npos);
        if npos != -1 {
          store[npos] := store[npos].(prev := ppos);
        }
        if pos == tail {
          tail := ppos;
        }
      } else {
        var npos := store[pos].next;
        head := npos;
        if npos != -1 {
          store[npos] := store[npos].(prev := -1);
        } else {
          tail := -1;
        }
      }
      store[pos] := Elem(0, -1, -1);
      nelems := nelems - 1;
      RemoveLinked(was, store[..], order, i);
      WithoutOrder(tickets, i);
      order, tickets := Without(order, i), Without(tickets, i);
    }

    /** can_commit: no syncpoint is before. */
    method CanCommit(pos: int, ghost i: nat) returns (r: bool)
      requires Valid() && (pos == -1 || (i < |order| && order[i] == pos))
      ensures r <==> pos == -1 || forall j :: 0 <= j < i ==> ValueAt(store[..], order, j) != 2
      ensures r <==> pos == -1 || forall j :: 0 <= j < i ==> order[j] < store.Length && store[order[j]].value != 2
    {
      if pos == -1 {
        return true;
      }
      ghost var k := i;
      assert NodeOK(store[..], order, i);
      forall j | 0 <= j < i
        ensures order[j] < store.Length && ValueAt(store[..], order, j) == store[order[j]].value
      {
        assert NodeOK(store[..], order, j);
      }
      var prev := store[pos].prev;
      while prev != -1
        invariant 0 <= k <= i && prev == Before(order, k)
        invariant forall j :: k <= j < i ==> ValueAt(store[..], order, j) != 2
        decreases k
      {
        k := k - 1;
        assert NodeOK(store[..], order, k);
        if store[prev].value == 2 {
          assert ValueAt(store[..], order, k) == 2;
          return false;
        }
        prev := store[prev].prev;
      }
      return true;
    }

    /** txl_wait_sphead's test: everything that arrived before has been removed. */
    method AtHead(pos: nat, ghost i: nat) returns (r: bool)
      requires Valid() && i < |order| && order[i] == pos
      ensures r <==> i == 0
      ensures r <==> forall u :: 0 <= u < tickets[i] ==> u !in tickets
    {
      r := pos == head;
      assert i > 0 ==> order[0] != order[i] && tickets[0] in tickets && tickets[0] < tickets[i];
    }

    /** txl_syncpoint_at_head */
    method SyncpointAtHead() returns (r: bool)
      requires Valid()
      ensures r <==> order != [] && order[0] < store.Length && store[order[0]].value == 2
      ensures r ==> forall u :: 0 <= u < tickets[0] ==> u !in tickets
    {
      if order != [] {
        assert NodeOK(store[..], order, 0);
      }
      r := head != -1 && store[head].value == 2;
    }
  }
}
