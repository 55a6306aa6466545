/**
  The recovery filter (src/syncpoint.c, src/pglogical_receiver.c): which transaction records of a
  stream a restarted receiver skips, against what the local WAL already holds.
 */
module RecoveryFilter {

  type Lsn = nat

  const MTM_MAX_NODES: nat := 16
  /** PG_UINT64_MAX */
  const MAX_LSN: Lsn := 0xFFFF_FFFF_FFFF_FFFF

  /** Replication origin of a WAL record, already looked up in the configuration. */
  datatype Origin = Own | Node(id: nat) | Foreign

  datatype Kind =
    | Commit | Prepare | CommitPrepared | AbortPrepared
    /** Registration of a syncpoint: about's changes up to upTo lie before since. */
    | Registration(about: nat, upTo: Lsn, since: Lsn)
    /** The message F_about_upTo, which tells readers of this WAL where the syncpoint was applied. */
    | Mark(about: nat, upTo: Lsn)
    | Other

  datatype WalRecord = WalRecord(start: Lsn, origin: Origin, kind: Kind, originLsn: Lsn)

  /** spvector entry; localLsn 0 means there is no filter slot for the node. */
  datatype Syncpoint = Syncpoint(originLsn: Lsn, localLsn: Lsn)

  predicate IsTransaction(r: WalRecord) {
    r.kind.Commit? || r.kind.Prepare? || r.kind.CommitPrepared? || r.kind.AbortPrepared?
  }

  predicate ValidNode(id: nat) {
    1 <= id <= MTM_MAX_NODES
  }

  /** Records lie in the order of their positions, and are attributed to existing nodes. */
  ghost predicate ValidWal(wal: seq<WalRecord>) {
    && (forall i, j :: 0 <= i < j < |wal| ==> wal[i].start < wal[j].start)
    && (forall i :: 0 <= i < |wal| ==> wal[i].start < MAX_LSN && (wal[i].origin.Node? ==> ValidNode(wal[i].origin.id)))
  }

  /** The change that node's transaction record with end position lsn made is in the WAL. */
  ghost predicate Applied(wal: seq<WalRecord>, node: nat, lsn: Lsn) {
    exists k :: 0 <= k < |wal| && IsRecordOf(wal[k], node, lsn)
  }

  predicate IsRecordOf(r: WalRecord, node: nat, lsn: Lsn) {
    IsTransaction(r) && r.origin == Node(node) && r.originLsn == lsn
  }

  // ----- loading -----

  /** start is the least local position of the syncpoints with a slot, or MAX_LSN if there is none. */
  ghost predicate IsScanStart(spvector: seq<Syncpoint>, start: Lsn) {
    && (forall i :: 0 <= i < |spvector| && spvector[i].localLsn != 0 ==> start <= spvector[i].localLsn)
    && (start == MAX_LSN || exists i :: 0 <= i < |spvector| && spvector[i].localLsn == start != 0)
  }

  /** A record that the scan enters into the filter. */
  predicate Enters(r: WalRecord, filterNode: nat, spvector: seq<Syncpoint>)
    requires |spvector| == MTM_MAX_NODES
  {
    && r.origin.Node? && ValidNode(r.origin.id) && (filterNode == 0 || filterNode == r.origin.id)
    && IsTransaction(r) && r.originLsn > spvector[r.origin.id - 1].originLsn
  }

  /** filter holds exactly what the records of wal from start on enter. */
  ghost predicate IsFilter(filter: set<(nat, Lsn)>, wal: seq<WalRecord>, start: Lsn, filterNode: nat, spvector: seq<Syncpoint>)
    requires |spvector| == MTM_MAX_NODES
  {
    && (forall k {:trigger wal[k]} :: 0 <= k < |wal| && wal[k].start >= start && Enters(wal[k], filterNode, spvector) ==>
          (wal[k].origin.id, wal[k].originLsn) in filter)
    && (forall e :: e in filter ==> exists k :: 0 <= k < |wal| && wal[k].start >= start && Enters(wal[k], filterNode, spvector)
                                                && e == (wal[k].origin.id, wal[k].originLsn))
  }

  method ScanStart(spvector: array<Syncpoint>) returns (start: Lsn)
    requires forall i :: 0 <= i < spvector.Length ==> spvector[i].localLsn <= MAX_LSN
    ensures IsScanStart(spvector[..], start)
  {
    start := MAX_LSN;
    for i := 0 to spvector.Length
      invariant forall j :: 0 <= j < i && spvector[j].localLsn != 0 ==> start <= spvector[j].localLsn
      invariant start <= MAX_LSN
      invariant start == MAX_LSN || exists j :: 0 <= j < i && spvector[j].localLsn == start != 0
    {
      if start > spvector[i].localLsn && spvector[i].localLsn != 0 {
        start := spvector[i].localLsn;
      }
    }
  }

  /** XLogBeginRead: index of the first record at or after start. */
  method Seek(wal: seq<WalRecord>, start: Lsn) returns (k: nat)
    requires ValidWal(wal)
    ensures k <= |wal| && (forall i :: 0 <= i < k ==> wal[i].start < start) && (forall i :: k <= i < |wal| ==> wal[i].start >= start)
  {
    k := 0;
    while k < |wal| && wal[k].start < start
      invariant k <= |wal| && forall i :: 0 <= i < k ==> wal[i].start < start
    {
      k := k + 1;
    }
  }

  /** RecoveryFilterLoad over the flushed WAL; filterNode 0 collects all nodes. */
  method LoadFilter(filterNode: nat, spvector: array<Syncpoint>, wal: seq<WalRecord>)
    returns (filter: set<(nat, Lsn)>, start: Lsn)
    requires ValidWal(wal) && spvector.Length == MTM_MAX_NODES
    requires forall i :: 0 <= i < spvector.Length ==> spvector[i].localLsn <= MAX_LSN
    ensures IsScanStart(spvector[..], start) && IsFilter(filter, wal, start, filterNode, spvector[..])
  {
    start := ScanStart(spvector);
    filter := {};
    if start == MAX_LSN {
      return;
    }
    var k := Seek(wal, start);
    filter := Scan(filterNode, spvector[..], wal, k, start);
  }

  /** The scan proper, from the k-th record on. */
  method Scan(filterNode: nat, spvector: seq<Syncpoint>, wal: seq<WalRecord>, k0: nat, ghost from: Lsn) returns (filter: set<(nat, Lsn)>)
    requires ValidWal(wal) && |spvector| == MTM_MAX_NODES && k0 <= |wal|
    requires (forall i :: 0 <= i < k0 ==> wal[i].start < from) && (forall i :: k0 <= i < |wal| ==> wal[i].start >= from)
    ensures IsFilter(filter, wal, from, filterNode, spvector)
  {
    filter := {};
    var k := k0;
    while k < |wal|
      invariant k0 <= k <= |wal| && IsFilter(filter, wal[..k], from, filterNode, spvector)
    {
      var r := wal[k];
      ghost var before := filter;
      if r.origin.Node? && (filterNode == 0 || filterNode == r.origin.id) && IsTransaction(r) {
        if r.originLsn > spvector[r.origin.id - 1].originLsn {
          filter := filter + {(r.origin.id, r.originLsn)};
        }
      }
      FilterNext(before, filter, wal, k, from, filterNode, spvector);
      k := k + 1;
    }
    assert wal[..k] == wal;
  }

  lemma FilterNext(before: set<(nat, Lsn)>, after: set<(nat, Lsn)>, wal: seq<WalRecord>, k: nat, start: Lsn, filterNode: nat,
                   spvector: seq<Syncpoint>)
    requires |spvector| == MTM_MAX_NODES && k < |wal| && wal[k].start >= start && IsFilter(before, wal[..k], start, filterNode, spvector)
    requires after == if Enters(wal[k], filterNode, spvector) then before + {(wal[k].origin.id, wal[k].originLsn)} else before
    ensures IsFilter(after, wal[..k + 1], start, filterNode, spvector)
  {
    var w, w' := wal[..k], wal[..k + 1];
    forall e | e in after
      ensures exists i :: 0 <= i < |w'| && w'[i].start >= start && Enters(w'[i], filterNode, spvector)
                          && e == (w'[i].origin.id, w'[i].originLsn)
    {
      if e in before {
        var i :| 0 <= i < |w| && w[i].start >= start && Enters(w[i], filterNode, spvector) && e == (w[i].origin.id, w[i].originLsn);
        assert w'[i] == w[i];
      } else {
        assert w'[k] == wal[k];
      }
    }
    forall i | 0 <= i < |w'| && w'[i].start >= start && Enters(w'[i], filterNode, spvector)
      ensures (w'[i].origin.id, w'[i].originLsn) in after
    {
      if i < k {
        assert w[i] == w'[i];
      }
    }
  }

  // ----- filtering -----

  /** MtmFilterTransaction: whether the record of originNode (0 if unknown) ending at lsn there is skipped. */
  predicate Skips(filter: set<(nat, Lsn)>, spvector: seq<Syncpoint>, me: nat, originNode: nat, lsn: Lsn): (r: bool)
    requires |spvector| == MTM_MAX_NODES && originNode <= MTM_MAX_NODES
    // unknown origins, those without a filter slot, and one's own records
    ensures originNode == 0 || originNode == me || spvector[originNode - 1].localLsn == 0 ==> r
  {
    if originNode == 0 then true
    else if spvector[originNode - 1].localLsn == 0 then true
    else if originNode == me then true
    else if lsn <= spvector[originNode - 1].originLsn then true
    else (originNode, lsn) in filter
  }

  /** The syncpoint contract for node's changes, whose transaction records end at the positions in made. */
  ghost predicate SyncpointHolds(wal: seq<WalRecord>, node: nat, sp: Syncpoint, made: set<Lsn>) {
    && (forall l :: l in made && l <= sp.originLsn ==> Applied(wal, node, l))
    && (forall k, l: Lsn {:trigger IsRecordOf(wal[k], node, l)} ::
          0 <= k < |wal| && IsRecordOf(wal[k], node, l) && l > sp.originLsn ==> wal[k].start >= sp.localLsn)
  }

  /** The second half of the contract is enough for what is applied to be skipped. */
  lemma AppliedIsSkipped(wal: seq<WalRecord>, filter: set<(nat, Lsn)>, start: Lsn, filterNode: nat, spvector: seq<Syncpoint>,
                         me: nat, node: nat, l: Lsn)
    requires |spvector| == MTM_MAX_NODES && ValidNode(node)
    requires IsScanStart(spvector, start) && IsFilter(filter, wal, start, filterNode, spvector)
    requires (filterNode == 0 || filterNode == node) && spvector[node - 1].localLsn != 0
    requires SyncpointHolds(wal, node, spvector[node - 1], {}) && Applied(wal, node, l)
    ensures Skips(filter, spvector, me, node, l)
  {
    if l > spvector[node - 1].originLsn {
      var k :| 0 <= k < |wal| && IsRecordOf(wal[k], node, l);
      assert Enters(wal[k], filterNode, spvector) && wal[k].start >= start;
    }
  }

  /**
    Under the syncpoint contract the filter skips a record of a known foreign origin if and only if
    its change is already in the flushed WAL.
   */
  lemma SkipIffApplied(wal: seq<WalRecord>, filter: set<(nat, Lsn)>, start: Lsn, filterNode: nat, spvector: seq<Syncpoint>,
                       me: nat, node: nat, made: set<Lsn>, l: Lsn)
    requires ValidWal(wal) && |spvector| == MTM_MAX_NODES && ValidNode(node)
    requires IsScanStart(spvector, start) && IsFilter(filter, wal, start, filterNode, spvector)
    requires filterNode == 0 || filterNode == node
    requires node != me && spvector[node - 1].localLsn != 0
    requires SyncpointHolds(wal, node, spvector[node - 1], made) && l in made
    ensures Skips(filter, spvector, me, node, l) <==> Applied(wal, node, l)
  {
    if Applied(wal, node, l) {
      AppliedIsSkipped(wal, filter, start, filterNode, spvector, me, node, l);
    }
    if l > spvector[node - 1].originLsn {
      if (node, l) in filter {
        var k :| 0 <= k < |wal| && wal[k].start >= start && Enters(wal[k], filterNode, spvector)
                 && (node, l) == (wal[k].origin.id, wal[k].originLsn);
        assert IsRecordOf(wal[k], node, l);
      }
    }
  }
}
