/**
  The mtm.syncpoints table: translation of an origin's position into another node's WAL, the
  recovery horizon, and the cleanup of old rows.  A row (receiver, origin, origin_lsn, receiver_lsn)
  is kept under its unique key; LSNs are naturals, 0 is 0/0.
 */
module Syncpoints {

  type Lsn = nat

  datatype Option<T> = None | Some(value: T)

  /** Rows registered by one receiver: (origin, origin_lsn) to receiver_lsn. */
  type Rows = map<(nat, Lsn), Lsn>

  /** One node's copy of the table: receiver to its rows. */
  type View = map<nat, Rows>

  function RowsOf(view: View, n: nat): Rows {
    if n in view then view[n] else map[]
  }

  function OriginLsns(rows: Rows, origin: nat): set<Lsn> {
    set k | k in rows && k.0 == origin :: k.1
  }

  // ----- order by ... limit 1 -----

  ghost predicate IsMax(s: set<nat>, m: nat) {
    m in s && forall x :: x in s ==> x <= m
  }

  ghost predicate IsMin(s: set<nat>, m: nat) {
    m in s && forall x :: x in s ==> m <= x
  }

  lemma {:induction false} MaxExists(s: set<nat>)
    requires s != {}
    ensures exists m :: IsMax(s, m)
    decreases |s|
  {
    var x :| x in s;
    if s == {x} {
      assert IsMax(s, x);
    } else {
      var rest := s - {x};
      assert s == rest + {x};
      MaxExists(rest);
      var m :| IsMax(rest, m);
      assert IsMax(s, if m < x then x else m);
    }
  }

  lemma {:induction false} MinExists(s: set<nat>)
    requires s != {}
    ensures exists m :: IsMin(s, m)
    decreases |s|
  {
    var x :| x in s;
    if s == {x} {
      assert IsMin(s, x);
    } else {
      var rest := s - {x};
      assert s == rest + {x};
      MinExists(rest);
      var m :| IsMin(rest, m);
      assert IsMin(s, if x < m then x else m);
    }
  }

  function MaxOf(s: set<nat>): (m: nat)
    requires s != {}
    ensures IsMax(s, m)
  {
    MaxExists(s);
    var m :| m in s && forall x :: x in s ==> x <= m;
    m
  }

  function MinOf(s: set<nat>): (m: nat)
    requires s != {}
    ensures IsMin(s, m)
  {
    MinExists(s);
    var m :| m in s && forall x :: x in s ==> m <= x;
    m
  }

  // ----- the queries -----

  /** origin_lsn of translate_syncpoint: the latest emitpoint at or before lsn. */
  function TranslateLsn(rows: Rows, origin: nat, lsn: Lsn): (r: Option<Lsn>)
    ensures r.None? ==> forall l :: l in OriginLsns(rows, origin) ==> l > lsn
    ensures r.Some? ==> (origin, r.value) in rows && r.value <= lsn
                        && forall l :: l in OriginLsns(rows, origin) && l <= lsn ==> l <= r.value
  {
    var s := set l | l in OriginLsns(rows, origin) && l <= lsn;
    assert forall l :: l in OriginLsns(rows, origin) && l <= lsn ==> l in s;
    if s == {} then None else Some(MaxOf(s))
  }

  /** emitter_lsn of translate_syncpoint, 0 when there is no suitable row. */
  function EmitterLsn(rows: Rows, origin: nat, lsn: Lsn): Lsn {
    match TranslateLsn(rows, origin, lsn)
    case None => 0
    case Some(l) => rows[(origin, l)]
  }

  /** A registered position is translated by its own row. */
  lemma EmitterExact(rows: Rows, origin: nat, lsn: Lsn)
    requires (origin, lsn) in rows
    ensures EmitterLsn(rows, origin, lsn) == rows[(origin, lsn)]
  {
    assert lsn in OriginLsns(rows, origin);
  }

  /** latest_syncpoints.origin_lsn: up to where the receiver applied everything of origin. */
  function LatestLsn(rows: Rows, origin: nat): (r: Lsn)
    ensures forall l :: l in OriginLsns(rows, origin) ==> l <= r
    ensures r == 0 || (origin, r) in rows
  {
    if OriginLsns(rows, origin) == {} then 0 else MaxOf(OriginLsns(rows, origin))
  }

  /** What one origin contributes to the horizon towards sender. */
  function HorizonTerm(view: View, me: nat, sender: nat, origin: nat): Lsn {
    var latest := LatestLsn(RowsOf(view, me), origin);
    if origin == sender then latest else EmitterLsn(RowsOf(view, sender), origin, latest)
  }

  function HorizonTerms(view: View, nodes: set<nat>, me: nat, sender: nat): set<Lsn> {
    set o | o in nodes && o != me :: HorizonTerm(view, me, sender, o)
  }

  /** get_recovery_horizon; NULL when there is no other node. */
  function Horizon(view: View, nodes: set<nat>, me: nat, sender: nat): Option<Lsn> {
    var terms := HorizonTerms(view, nodes, me, sender);
    if terms == {} then None else Some(MinOf(terms))
  }

  /** The horizon is NULL exactly when there is no other node; that there is no such sender does not matter. */
  lemma HorizonNull(view: View, nodes: set<nat>, me: nat, sender: nat)
    ensures Horizon(view, nodes, me, sender).None? <==> nodes <= {me}
  {
    var terms := HorizonTerms(view, nodes, me, sender);
    if o :| o in nodes && o != me {
      assert HorizonTerm(view, me, sender, o) in terms;
    }
  }

  /** oldest_syncpoint: the position in origin's changes of the node that lags most. */
  function OldestSyncpoint(view: View, nodes: set<nat>, origin: nat): Option<Lsn> {
    var s := set n | n in nodes && n != origin :: LatestLsn(RowsOf(view, n), origin);
    if s == {} then None else Some(MinOf(s))
  }

  lemma OldestIsLow(view: View, nodes: set<nat>, origin: nat, n: nat)
    requires n in nodes && n != origin
    ensures OldestSyncpoint(view, nodes, origin).Some?
    ensures OldestSyncpoint(view, nodes, origin).value <= LatestLsn(RowsOf(view, n), origin)
  {
    var s := set x | x in nodes && x != origin :: LatestLsn(RowsOf(view, x), origin);
    assert LatestLsn(RowsOf(view, n), origin) in s;
  }

  /** It is the latest syncpoint of some node other than the origin. */
  lemma OldestIsSomeones(view: View, nodes: set<nat>, origin: nat)
    ensures OldestSyncpoint(view, nodes, origin).None? <==> nodes <= {origin}
    ensures OldestSyncpoint(view, nodes, origin).Some? ==>
              exists n :: n in nodes && n != origin && LatestLsn(RowsOf(view, n), origin) == OldestSyncpoint(view, nodes, origin).value
  {
    var s := set x | x in nodes && x != origin :: LatestLsn(RowsOf(view, x), origin);
    if n :| n in nodes && n != origin {
      assert LatestLsn(RowsOf(view, n), origin) in s;
    }
  }

  // ----- the recovery horizon is safe -----

  /** A record of origin's WAL. */
  datatype Change = Change(origin: nat, start: Lsn, end: Lsn)

  /** Where changes lie: (node, change) to the position in that node's WAL. */
  type Placement = map<(nat, Change), Lsn>

  /** The contract of a row, as the table's comment states it. */
  ghost predicate Contract(at: Placement, receiver: nat, origin: nat, origin_lsn: Lsn, receiver_lsn: Lsn) {
    forall c: Change {:trigger (receiver, c)} :: c.origin == origin ==>
      && (Exists(at, c) && c.end <= origin_lsn ==> (receiver, c) in at && at[(receiver, c)] < receiver_lsn)
      && (c.start >= origin_lsn && (receiver, c) in at ==> at[(receiver, c)] >= receiver_lsn)
  }

  /** The change was made: it lies at its start in its origin's WAL. */
  predicate Exists(at: Placement, c: Change) {
    (c.origin, c) in at && at[(c.origin, c)] == c.start && c.start < c.end
  }

  /** No change of origin straddles a syncpoint: an origin_lsn is the end of a WAL record. */
  ghost predicate Boundary(at: Placement, origin: nat, lsn: Lsn) {
    forall c {:trigger Exists(at, c)} :: Exists(at, c) && c.origin == origin ==> c.end <= lsn || c.start >= lsn
  }

  ghost predicate ContractView(at: Placement, view: View) {
    forall n, k {:trigger view[n][k]} :: n in view && k in view[n] ==>
      Contract(at, n, k.0, k.1, view[n][k]) && Boundary(at, k.0, k.1)
  }

  /**
    A change that me still misses does not lie before the horizon in the sender's WAL, so
    confirming the horizon to the sender lets nothing be lost.
   */
  lemma HorizonSafe(at: Placement, view: View, nodes: set<nat>, me: nat, sender: nat, c: Change)
    requires ContractView(at, view) && c.origin in nodes && c.origin != me
    requires Exists(at, c) && (me, c) !in at && (sender, c) in at
    ensures Horizon(view, nodes, me, sender).Some? && Horizon(view, nodes, me, sender).value <= at[(sender, c)]
  {
    var o := c.origin;
    var rows := RowsOf(view, me);
    var latest := LatestLsn(rows, o);
    assert HorizonTerm(view, me, sender, o) in HorizonTerms(view, nodes, me, sender);
    if latest > 0 {
      assert view[me][(o, latest)] == rows[(o, latest)];
      assert c.start >= latest;
    }
    if o != sender {
      var senders := RowsOf(view, sender);
      if TranslateLsn(senders, o, latest).Some? {
        var l := TranslateLsn(senders, o, latest).value;
        assert view[sender][(o, l)] == senders[(o, l)];
      }
    }
  }

  // ----- and never moves back -----

  /** A receiver registers syncpoints of an origin at growing local positions. */
  ghost predicate Ordered(rows: Rows) {
    forall o, l, m {:trigger (o, l), (o, m)} :: (o, l) in rows && (o, m) in rows && l <= m ==> rows[(o, l)] <= rows[(o, m)]
  }

  lemma TranslateGrows(rows: Rows, origin: nat, lsn: Lsn, lsn': Lsn)
    requires Ordered(rows) && lsn <= lsn'
    ensures EmitterLsn(rows, origin, lsn) <= EmitterLsn(rows, origin, lsn')
  {
    if TranslateLsn(rows, origin, lsn).Some? {
      var l := TranslateLsn(rows, origin, lsn).value;
      assert l in OriginLsns(rows, origin);
    }
  }

  /** insert ... on conflict do nothing */
  function Inserted(rows: Rows, origin: nat, lsn: Lsn, local: Lsn): (r: Rows)
    ensures r.Keys == rows.Keys + {(origin, lsn)} && (forall k :: k in rows ==> r[k] == rows[k])
    ensures (origin, lsn) !in rows ==> r[(origin, lsn)] == local
  {
    if (origin, lsn) in rows then rows else rows[(origin, lsn) := local]
  }

  /** The row a receiver registers is newer than its others about that origin. */
  ghost predicate Newer(rows: Rows, origin: nat, lsn: Lsn, local: Lsn) {
    forall l :: (origin, l) in rows ==> l < lsn && rows[(origin, l)] <= local
  }

  lemma InsertGrows(rows: Rows, origin: nat, lsn: Lsn, local: Lsn, o: nat, x: Lsn)
    requires Ordered(rows) && Newer(rows, origin, lsn, local)
    ensures var rows' := Inserted(rows, origin, lsn, local);
            && Ordered(rows')
            && LatestLsn(rows, o) <= LatestLsn(rows', o)
            && EmitterLsn(rows, o, x) <= EmitterLsn(rows', o, x)
  {
    var rows' := Inserted(rows, origin, lsn, local);
    assert forall k :: k in rows ==> k in rows' && rows'[k] == rows[k];
    assert OriginLsns(rows, o) <= OriginLsns(rows', o);
    if TranslateLsn(rows, o, x).Some? {
      var l := TranslateLsn(rows, o, x).value;
      assert l in OriginLsns(rows', o);
      var l' := TranslateLsn(rows', o, x).value;
      assert l' in OriginLsns(rows', o) && l <= l';
      assert (o, l') != (origin, lsn) ==> (o, l') in rows && rows'[(o, l')] == rows[(o, l')];
    }
  }

  lemma HorizonGrows(view: View, view': View, nodes: set<nat>, me: nat, sender: nat)
    requires forall o :: o in nodes && o != me ==> HorizonTerm(view, me, sender, o) <= HorizonTerm(view', me, sender, o)
    ensures Horizon(view, nodes, me, sender).Some? <==> Horizon(view', nodes, me, sender).Some?
    ensures Horizon(view, nodes, me, sender).Some? ==>
              Horizon(view, nodes, me, sender).value <= Horizon(view', nodes, me, sender).value
  {
    var terms, terms' := HorizonTerms(view, nodes, me, sender), HorizonTerms(view', nodes, me, sender);
    assert forall o :: o in nodes && o != me ==> HorizonTerm(view, me, sender, o) in terms && HorizonTerm(view', me, sender, o) in terms';
  }

  // ----- cleanup -----

  /** A row that cleanup_old_syncpoints, run by me on its view, deletes. */
  predicate Obsolete(view: View, nodes: set<nat>, me: nat, k: (nat, Lsn)) {
    var rows := RowsOf(view, me);
    k in rows &&
    if k.0 !in nodes then true
    else
      && k.0 != me && OldestSyncpoint(view, nodes, k.0).Some?
      && var kept := TranslateLsn(rows, k.0, OldestSyncpoint(view, nodes, k.0).value);
      && kept.Some? && k.1 < kept.value && k.1 < LatestLsn(rows, k.0)
  }

  function ObsoleteKeys(view: View, nodes: set<nat>, me: nat): set<(nat, Lsn)> {
    set k | k in RowsOf(view, me) && Obsolete(view, nodes, me, k)
  }

  /** Which positions in origin's changes a deletion of keys from rows leaves translated as before. */
  ghost predicate Unaffected(rows: Rows, keys: set<(nat, Lsn)>, origin: nat, lsn: Lsn) {
    && TranslateLsn(rows - keys, origin, lsn) == TranslateLsn(rows, origin, lsn)
    && EmitterLsn(rows - keys, origin, lsn) == EmitterLsn(rows, origin, lsn)
  }

  /** Whatever the node's own view of the others, it keeps its own latest syncpoints. */
  lemma CleanupKeepsLatest(view: View, nodes: set<nat>, me: nat, origin: nat)
    requires origin in nodes
    ensures LatestLsn(RowsOf(view, me) - ObsoleteKeys(view, nodes, me), origin) == LatestLsn(RowsOf(view, me), origin)
  {
    var rows, keys := RowsOf(view, me), ObsoleteKeys(view, nodes, me);
    var l := LatestLsn(rows, origin);
    assert OriginLsns(rows - keys, origin) <= OriginLsns(rows, origin);
    if l > 0 {
      assert (origin, l) !in keys;
      assert l in OriginLsns(rows - keys, origin);
    }
  }

  /**
    Cleanup, computed from a view in which node n's syncpoints may lag behind, leaves the
    translation of every position at or above n's actual latest syncpoint as it was.
   */
  lemma CleanupKeepsAnswers(view: View, nodes: set<nat>, me: nat, origin: nat, n: nat, lsn: Lsn)
    requires origin in nodes && n in nodes && n != origin && lsn >= LatestLsn(RowsOf(view, n), origin)
    ensures Unaffected(RowsOf(view, me), ObsoleteKeys(view, nodes, me), origin, lsn)
  {
    var rows, keys := RowsOf(view, me), ObsoleteKeys(view, nodes, me);
    OldestIsLow(view, nodes, origin, n);
    var oldest := OldestSyncpoint(view, nodes, origin).value;
    var kept := TranslateLsn(rows, origin, oldest);
    assert OriginLsns(rows - keys, origin) <= OriginLsns(rows, origin);
    var now := TranslateLsn(rows, origin, lsn);
    if now.Some? {
      assert (origin, now.value) !in keys by {
        assert kept.Some? ==> kept.value in OriginLsns(rows, origin);
      }
      assert now.value in OriginLsns(rows - keys, origin);
    }
  }

  /** The node has applied everything of origin up to lsn, as far as the view shows. */
  predicate HasReached(view: View, n: nat, origin: nat, lsn: Lsn) {
    exists m :: m in OriginLsns(RowsOf(view, n), origin) && m >= lsn
  }

  lemma ReachedIs(view: View, n: nat, origin: nat, lsn: Lsn)
    requires lsn > 0
    ensures HasReached(view, n, origin, lsn) <==> (exists m: Lsn :: (origin, m) in RowsOf(view, n) && m >= lsn)
    ensures HasReached(view, n, origin, lsn) <==> LatestLsn(RowsOf(view, n), origin) >= lsn
  {
    var rows := RowsOf(view, n);
    var latest := LatestLsn(rows, origin);
    if latest >= lsn {
      assert latest in OriginLsns(rows, origin);
    }
    if m: Lsn :| (origin, m) in rows && m >= lsn {
      assert m in OriginLsns(rows, origin);
    }
  }

  /** A row of mine about another node is obsolete exactly when a newer one is at or before every other node's latest syncpoint. */
  lemma ObsoleteIff(view: View, nodes: set<nat>, me: nat, o: nat, l: Lsn)
    requires me in nodes && o in nodes && o != me && (o, l) in RowsOf(view, me)
    ensures (o, l) in ObsoleteKeys(view, nodes, me) <==> exists m: Lsn :: Supersedes(view, nodes, me, o, l, m)
  {
    var rows := RowsOf(view, me);
    OldestIsSomeones(view, nodes, o);
    OldestIsLow(view, nodes, o, me);
    var oldest := OldestSyncpoint(view, nodes, o).value;
    var kept := TranslateLsn(rows, o, oldest);
    if (o, l) in ObsoleteKeys(view, nodes, me) {
      forall n | n in nodes && n != o
        ensures exists x: Lsn :: (o, x) in RowsOf(view, n) && x >= kept.value
      {
        OldestIsLow(view, nodes, o, n);
        ReachedIs(view, n, o, kept.value);
      }
      assert Supersedes(view, nodes, me, o, l, kept.value);
    }
    if m: Lsn :| Supersedes(view, nodes, me, o, l, m) {
      var n :| n in nodes && n != o && LatestLsn(RowsOf(view, n), o) == oldest;
      ReachedIs(view, n, o, m);
      ReachedIs(view, me, o, m);
      assert m in OriginLsns(rows, o);
    }
  }

  /** My row about o at m is newer than the one at l, and every node other than o has a syncpoint of o at m or beyond. */
  ghost predicate Supersedes(view: View, nodes: set<nat>, me: nat, o: nat, l: Lsn, m: Lsn) {
    && (o, m) in RowsOf(view, me) && l < m
    && forall n :: n in nodes && n != o ==> exists x: Lsn :: (o, x) in RowsOf(view, n) && x >= m
  }

  /** The obsolete rows about one of the origins. */
  function ObsoleteAbout(view: View, nodes: set<nat>, me: nat, origins: set<nat>): set<(nat, Lsn)> {
    set k | k in RowsOf(view, me) && k.0 in origins && Obsolete(view, nodes, me, k)
  }

  /** One turn of the cleanup loop; rows is what is left of me's rows so far, those about o being untouched. */
  method CleanupOrigin(view: View, nodes: set<nat>, me: nat, rows: Rows, o: nat) returns (rows': Rows)
    requires o in nodes && o != me
    requires forall k: (nat, Lsn) :: k.0 == o ==> (k in rows <==> k in RowsOf(view, me)) && (k in rows ==> rows[k] == RowsOf(view, me)[k])
    ensures rows' == rows - ObsoleteAbout(view, nodes, me, {o})
  {
    var now := if me in view then view[me := rows] else view;
    var oldest := OldestSyncpoint(now, nodes, o);
    var kept_ep := if oldest.Some? then TranslateLsn(rows, o, oldest.value) else None;
    var kept_ap := LatestLsn(rows, o);
    var doomed := set k | k in rows && k.0 == o && kept_ep.Some? && k.1 < kept_ep.value && k.1 < kept_ap;
    SameForOrigin(view, nodes, me, rows, o);
    assert doomed == ObsoleteAbout(view, nodes, me, {o});
    rows' := rows - doomed;
  }

  /** cleanup_old_syncpoints: origin by origin, then the rows about dropped nodes. */
  method CleanupOldSyncpoints(view: View, nodes: set<nat>, me: nat) returns (rows: Rows)
    ensures rows == RowsOf(view, me) - ObsoleteKeys(view, nodes, me)
    // what is left is as it was; rows about dropped nodes are gone, and those about oneself stay
    ensures forall k :: k in rows ==> k in RowsOf(view, me) && rows[k] == RowsOf(view, me)[k] && k.0 in nodes
    ensures forall k :: k in RowsOf(view, me) && k.0 == me && me in nodes ==> k in rows
    // a row about another node is gone exactly when a newer one is at or before every other node's latest syncpoint
    ensures me in nodes ==> forall o: nat, l: Lsn {:trigger (o, l) in rows} :: (o, l) in RowsOf(view, me) && o in nodes && o != me ==>
              ((o, l) !in rows <==>
                 exists m: Lsn :: (o, m) in RowsOf(view, me) && l < m
                                  && forall n :: n in nodes && n != o ==> exists x: Lsn :: (o, x) in RowsOf(view, n) && x >= m)
  {
    ghost var start, origins := RowsOf(view, me), nodes - {me};
    rows := RowsOf(view, me);
    var todo := nodes - {me};
    while todo != {}
      invariant todo <= origins && rows == start - ObsoleteAbout(view, nodes, me, origins - todo)
    {
      var o :| o in todo;
      rows := CleanupOrigin(view, nodes, me, rows, o);
      todo := todo - {o};
    }
    rows := rows - set k | k in rows && k.0 !in nodes;
    WhatIsLeft(view, nodes, me, rows);
  }

  /** The rows that are not obsolete. */
  lemma WhatIsLeft(view: View, nodes: set<nat>, me: nat, rows: Rows)
    requires rows == RowsOf(view, me) - ObsoleteKeys(view, nodes, me)
    ensures forall k :: k in rows ==> k in RowsOf(view, me) && rows[k] == RowsOf(view, me)[k] && k.0 in nodes
    ensures forall k :: k in RowsOf(view, me) && k.0 == me && me in nodes ==> k in rows
    ensures me in nodes ==> forall o: nat, l: Lsn {:trigger (o, l) in rows} :: (o, l) in RowsOf(view, me) && o in nodes && o != me ==>
              ((o, l) !in rows <==>
                 exists m: Lsn :: (o, m) in RowsOf(view, me) && l < m
                                  && forall n :: n in nodes && n != o ==> exists x: Lsn :: (o, x) in RowsOf(view, n) && x >= m)
  {
    forall o: nat, l: Lsn | me in nodes && (o, l) in RowsOf(view, me) && o in nodes && o != me
      ensures (o, l) !in rows <==>
                exists m: Lsn :: (o, m) in RowsOf(view, me) && l < m
                                 && forall n :: n in nodes && n != o ==> exists x: Lsn :: (o, x) in RowsOf(view, n) && x >= m
    {
      ObsoleteIff(view, nodes, me, o, l);
      SupersedesIs(view, nodes, me, o, l);
    }
  }

  lemma SupersedesIs(view: View, nodes: set<nat>, me: nat, o: nat, l: Lsn)
    ensures (exists m: Lsn :: Supersedes(view, nodes, me, o, l, m)) <==>
              exists m: Lsn :: (o, m) in RowsOf(view, me) && l < m
                               && forall n :: n in nodes && n != o ==> exists x: Lsn :: (o, x) in RowsOf(view, n) && x >= m
  {
    if m: Lsn :| (o, m) in RowsOf(view, me) && l < m && forall n :: n in nodes && n != o ==> exists x: Lsn :: (o, x) in RowsOf(view, n) && x >= m {
      assert Supersedes(view, nodes, me, o, l, m);
    }
  }

  /** The rows about an origin that the loop has not reached yet are as they were, and so are its answers. */
  lemma SameForOrigin(view: View, nodes: set<nat>, me: nat, rows: Rows, o: nat)
    requires forall k: (nat, Lsn) :: k.0 == o ==> (k in rows <==> k in RowsOf(view, me)) && (k in rows ==> rows[k] == RowsOf(view, me)[k])
    ensures LatestLsn(rows, o) == LatestLsn(RowsOf(view, me), o)
    ensures forall x :: TranslateLsn(rows, o, x) == TranslateLsn(RowsOf(view, me), o, x)
    ensures OldestSyncpoint(if me in view then view[me := rows] else view, nodes, o) == OldestSyncpoint(view, nodes, o)
  {
    var now := if me in view then view[me := rows] else view;
    assert OriginLsns(rows, o) == OriginLsns(RowsOf(view, me), o);
    assert forall n :: LatestLsn(RowsOf(now, n), o) == LatestLsn(RowsOf(view, n), o);
    assert (set n | n in nodes && n != o :: LatestLsn(RowsOf(now, n), o)) == (set n | n in nodes && n != o :: LatestLsn(RowsOf(view, n), o));
  }
}
