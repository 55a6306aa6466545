/**
  struct MtmState and the functions of src/state.c that update it in place, each proved
  against the step functions of Generations that the transition system runs on.
 */
module GenerationState {
  import opened Quorums
  import opened Generations

  datatype ReceiveMode = ModeDisabled | ModeNormal | ModeDonor(donor: NodeId)

  /** MtmGenVoteResponse; lastVoteNum 0 asks for nothing, curGen None is MtmInvalidGenNum. */
  datatype VoteResponse = VoteResponse(sender: NodeId, genNum: nat, ok: bool, loi: nat, lastVoteNum: nat,
                                       curGen: Option<(Gen, set<NodeId>)>)

  /** first_set_bit(mask) + 1 of a non-empty mask. */
  function FirstNode(mask: set<NodeId>): (x: NodeId)
    requires mask != {}
    ensures x in mask && forall y :: y in mask ==> x <= y
  {
    FirstExists(mask);
    assert exists x :: IsFirst(mask, x);
    var x :| x in mask && forall y :: y in mask ==> x <= y;
    x
  }

  ghost predicate IsFirst(mask: set<NodeId>, x: NodeId) {
    x in mask && forall y :: y in mask ==> x <= y
  }

  lemma {:induction false} FirstExists(mask: set<NodeId>)
    requires mask != {}
    ensures exists x :: IsFirst(mask, x)
  {
    var z :| z in mask;
    var rest := mask - {z};
    assert mask == rest + {z};
    if rest == {} {
      assert IsFirst(mask, z);
    } else {
      FirstExists(rest);
      var x :| IsFirst(rest, x);
      assert IsFirst(mask, if x < z then x else z);
    }
  }

  /** What MtmHandleParallelSafe leaves behind. */
  function AfterParallelSafe(me: NodeId, n: Node, gen: Gen, donors: set<NodeId>, isRecovery: bool): Node {
    var n1 := FinishSwitch(SwitchGen(me, n, gen, donors));
    if gen.num == n1.cur.num && StatusInGen(me, n1) == Recovery && isRecovery
    then FinishSwitch(OnlineByPS(n1)) else n1
  }

  const MaxNodes := 16

  /** What CampaignMyself sees of its surroundings: configuration, connectivity, heartbeats and the last catch-up report. */
  datatype View = View(
    backup: Option<NodeId>,
    replierLoaded: bool,
    connected: set<NodeId>,
    clique: set<NodeId>,
    othersLoi: seq<nat>,
    caughtUpFrom: Option<NodeId>,
    caughtUpLately: bool)
  {
    predicate Valid() {
      |othersLoi| == MaxNodes && forall y :: y in connected ==> 1 <= y <= MaxNodes
    }

    function Loi(y: NodeId): nat {
      if 1 <= y <= |othersLoi| then othersLoi[y - 1] else 0
    }

    predicate InQuorumClique(me: NodeId, conf: set<NodeId>) {
      Quorum(|conf|, |clique|) && me in clique
    }
  }

  /** The greatest last_online_in heard of among connected nodes. */
  ghost predicate IsDonorLoi(v: View, max: nat) {
    && (forall y :: y in v.connected ==> v.Loi(y) <= max)
    && (max == 0 || exists y :: y in v.connected && v.Loi(y) == max)
  }

  lemma LagKnown(v: View, max: nat, loi: nat)
    requires IsDonorLoi(v, max)
    ensures (exists y :: y in v.connected && loi < v.Loi(y)) <==> loi < max
  {
  }

  class MtmState {
    const me: NodeId
    const conf: set<NodeId>
    var curNum: nat
    var curMembers: set<NodeId>
    var curConfigured: set<NodeId>
    var donors: set<NodeId>
    var lastOnlineIn: nat
    var lastVote: Gen
    var psLogged: bool
    var wal: seq<Rec>
    var receiveMode: ReceiveMode
    var tour: Option<Tour>

    ghost function Snap(): Node
      reads this
    {
      Node(Gen(curNum, curMembers, curConfigured), donors, lastOnlineIn, lastVote, psLogged, wal, Idle, tour)
    }

    /** mtm_state_create, up to the state file. */
    constructor (me: NodeId, conf: set<NodeId>)
      ensures this.me == me && this.conf == conf
      ensures Snap() == InitialNode(conf).(proc := Idle)
      ensures curNum == 1 && curMembers == conf && curConfigured == conf && donors == conf && lastOnlineIn == 1 && lastVote == Gen(1, conf, {})
      ensures !psLogged && wal == [] && receiveMode == ModeDisabled && tour == None
    {
      this.me, this.conf := me, conf;
      curNum, curMembers, curConfigured, donors := 1, conf, conf, conf;
      lastOnlineIn, lastVote := 1, Gen(1, conf, {});
      psLogged, wal, receiveMode, tour := false, [], ModeDisabled, None;
    }

    method GetCurrentStatusInGen() returns (status: Status)
      ensures status == StatusInGen(me, Snap())
      ensures status == Online <==> lastOnlineIn == curNum
      ensures status == Recovery <==> lastOnlineIn != curNum && me in curMembers && 2 * |curMembers| > |curConfigured| && lastVote.num == curNum
    {
      if lastOnlineIn == curNum {
        return Online;
      } else if me in curMembers && Quorum(|curConfigured|, |curMembers|) && curNum == lastVote.num {
        return Recovery;
      } else {
        return Dead;
      }
    }

    method LogParallelSafe(num: nat)
      modifies `wal
      ensures wal == old(wal) + [ParallelSafe(num)]
    {
      wal := wal + [ParallelSafe(num)];
    }

    /** The switch proper: alive as a member that has promised no later generation, online at once as a donor. */
    method SwitchTo(gen: Gen, newDonors: set<NodeId>)
      requires newDonors != {} && curNum < gen.num
      modifies this
      ensures Snap() == FinishSwitch(SwitchGen(me, old(Snap()), gen, newDonors))
      ensures curNum == gen.num && curMembers == gen.members && curConfigured == gen.configured && donors == newDonors
      ensures lastVote == if old(lastVote).num < gen.num then gen else old(lastVote)
      ensures var alive := me in gen.members && old(lastVote).num <= gen.num
                           && (2 * |gen.members| > |gen.configured| || (|gen.configured| == 2 && |gen.members| == 1));
              if alive && me in newDonors
              then receiveMode == ModeNormal && lastOnlineIn == gen.num && psLogged && wal == old(wal) + [ParallelSafe(gen.num)]
              else && lastOnlineIn == old(lastOnlineIn) && psLogged == old(psLogged) && wal == old(wal)
                   && (!alive ==> receiveMode == ModeDisabled)
                   && (alive ==> receiveMode.ModeDonor? && receiveMode.donor in newDonors && forall y :: y in newDonors ==> receiveMode.donor <= y)
    {
      if lastVote.num < gen.num { lastVote := gen; }
      curNum, curMembers, curConfigured, donors := gen.num, gen.members, gen.configured, newDonors;
      if || me !in gen.members
         || (!Quorum(|gen.configured|, |gen.members|) && !IsRefereeGen(gen))
         || lastVote.num > gen.num
      {
        receiveMode := ModeDisabled;
        return;
      }
      if me in newDonors {
        psLogged := false;
        lastOnlineIn := gen.num;
        LogParallelSafe(gen.num);
        psLogged := true;
        receiveMode := ModeNormal;
      } else {
        receiveMode := ModeDonor(FirstNode(newDonors));
      }
    }

    /** MtmConsiderGenSwitch; ok is false for "multimaster is not initialized yet". */
    method ConsiderGenSwitch(gen: Gen, newDonors: set<NodeId>) returns (ok: bool)
      requires newDonors != {}
      modifies this
      ensures ok <==> old(curNum) >= gen.num || old(curNum) != 0
      ensures Snap() == if ok then FinishSwitch(SwitchGen(me, old(Snap()), gen, newDonors)) else old(Snap())
      ensures old(curNum) >= gen.num || old(curNum) == 0 ==> Snap() == old(Snap()) && receiveMode == old(receiveMode)
      ensures old(curNum) < gen.num && old(curNum) != 0 ==>
                && curNum == gen.num && curMembers == gen.members && curConfigured == gen.configured && donors == newDonors
                && lastVote == (if old(lastVote).num < gen.num then gen else old(lastVote))
      // a donor that is a member of a live generation, and has promised no later one, is online at once
      ensures old(curNum) < gen.num && old(curNum) != 0 ==>
                if && me in newDonors && me in gen.members && old(lastVote).num <= gen.num
                   && (2 * |gen.members| > |gen.configured| || (|gen.configured| == 2 && |gen.members| == 1))
                then receiveMode == ModeNormal && lastOnlineIn == gen.num && psLogged && wal == old(wal) + [ParallelSafe(gen.num)]
                else lastOnlineIn == old(lastOnlineIn) && psLogged == old(psLogged) && wal == old(wal)
      // after a switch an online node receives in normal mode, a recovering one from one of its donors, a dead one not at all
      ensures old(curNum) < gen.num && old(curNum) != 0 && old(lastOnlineIn) < gen.num && !(|gen.configured| == 2 && |gen.members| == 1) ==>
                && (lastOnlineIn == curNum ==> receiveMode == ModeNormal)
                && (lastOnlineIn != curNum && me in curMembers && 2 * |curMembers| > |curConfigured| && lastVote.num == curNum ==>
                      receiveMode.ModeDonor? && receiveMode.donor in donors && forall y :: y in donors ==> receiveMode.donor <= y)
                && (lastOnlineIn != curNum && !(me in curMembers && 2 * |curMembers| > |curConfigured| && lastVote.num == curNum) ==>
                      receiveMode == ModeDisabled)
    {
      if curNum >= gen.num { return true; }
      if curNum == 0 { return false; }
      SwitchTo(gen, newDonors);
      ok := true;
    }

    /** MtmHandleParallelSafe; reconnect is set for "can't be applied due to wrong receiver mode". */
    method HandleParallelSafe(gen: Gen, psDonors: set<NodeId>, isRecovery: bool)
      returns (reconnect: bool)
      requires psDonors != {} && curNum != 0
      modifies this
      ensures Snap() == AfterParallelSafe(me, old(Snap()), gen, psDonors, isRecovery)
      ensures reconnect <==>
                var n1 := FinishSwitch(SwitchGen(me, old(Snap()), gen, psDonors));
                gen.num == n1.cur.num && StatusInGen(me, n1) == Recovery && !isRecovery
      ensures reconnect ==> gen.num == curNum && lastOnlineIn != curNum && !isRecovery
      // whoever comes online receives in normal mode; after a switch a recovering node receives from one of its donors, a dead one not at all
      ensures lastOnlineIn != old(lastOnlineIn) ==> lastOnlineIn == curNum && receiveMode == ModeNormal
      ensures curNum == old(curNum) && lastOnlineIn == old(lastOnlineIn) ==> receiveMode == old(receiveMode)
      ensures lastOnlineIn != old(lastOnlineIn) ==> psLogged && wal == old(wal) + [ParallelSafe(curNum)]
      ensures lastOnlineIn == old(lastOnlineIn) <= old(curNum) ==> psLogged == old(psLogged) && wal == old(wal)
      ensures curNum == if old(curNum) < gen.num then gen.num else old(curNum)
      ensures curNum != old(curNum) && old(lastOnlineIn) < gen.num && !(|gen.configured| == 2 && |gen.members| == 1) ==>
                && (lastOnlineIn == curNum ==> receiveMode == ModeNormal)
                && (lastOnlineIn != curNum && me in curMembers && 2 * |curMembers| > |curConfigured| && lastVote.num == curNum ==>
                      receiveMode.ModeDonor? && receiveMode.donor in donors && forall y :: y in donors ==> receiveMode.donor <= y)
                && (lastOnlineIn != curNum && !(me in curMembers && 2 * |curMembers| > |curConfigured| && lastVote.num == curNum) ==>
                      receiveMode == ModeDisabled)
      // recovery up to the record of the current generation makes a recovering node online
      ensures isRecovery && old(curNum) == gen.num && me in curMembers && 2 * |curMembers| > |curConfigured| && lastVote.num == curNum ==>
                lastOnlineIn == curNum
      // no way into ONLINE but recovery up to the record, or being a donor
      ensures lastOnlineIn != old(lastOnlineIn) ==> lastOnlineIn == gen.num && (isRecovery || me in psDonors)
    {
      var _ := ConsiderGenSwitch(gen, psDonors);
      if gen.num < curNum { return false; }
      var status := GetCurrentStatusInGen();
      if gen.num != curNum || status != Recovery { return false; }
      if !isRecovery { return true; }
      psLogged := false;
      lastOnlineIn := gen.num;
      LogParallelSafe(gen.num);
      psLogged := true;
      receiveMode := ModeNormal;
      reconnect := false;
    }

    /** MtmStateStartup, the state file being loaded. */
    method StateStartup()
      requires donors != {}
      modifies `receiveMode, `wal, `psLogged
      ensures Snap() == FinishSwitch(Restart(old(Snap()).(proc := Down)))
      // a ParallelSafe record of the generation the node is online in is logged again if it may be missing
      ensures if curNum == lastOnlineIn && !old(psLogged) then psLogged && wal == old(wal) + [ParallelSafe(curNum)] else psLogged == old(psLogged) && wal == old(wal)
      ensures (lastOnlineIn == curNum ==> receiveMode == ModeNormal)
                && (lastOnlineIn != curNum && me in curMembers && 2 * |curMembers| > |curConfigured| && lastVote.num == curNum ==>
                      receiveMode.ModeDonor? && receiveMode.donor in donors && forall y :: y in donors ==> receiveMode.donor <= y)
                && (lastOnlineIn != curNum && !(me in curMembers && 2 * |curMembers| > |curConfigured| && lastVote.num == curNum) ==>
                      receiveMode == ModeDisabled)
    {
      var status := GetCurrentStatusInGen();
      match status {
        case Online => receiveMode := ModeNormal;
        case Recovery => receiveMode := ModeDonor(FirstNode(donors));
        case Dead => receiveMode := ModeDisabled;
      }
      if curNum == lastOnlineIn && !psLogged {
        LogParallelSafe(curNum);
        psLogged := true;
      }
    }

    /** HandleGenVoteRequest under the locks, up to the reply. */
    method HandleGenVoteRequest(req: Gen, sender: NodeId, clique: set<NodeId>, curGenConnected: bool)
      returns (resp: VoteResponse)
      modifies `lastVote, `receiveMode
      ensures resp.sender == me && resp.genNum == req.num
      ensures resp.ok <==> GrantsVote(me, old(Snap()), req, sender, clique, conf, curGenConnected)
      // a later number than the generation; the vote given last again, or a later one for members of the clique that adds nobody but the sender
      // and does not throw out somebody without need while the generation is fine here
      ensures resp.ok <==>
                && old(curNum) < req.num
                && (old(lastVote) == req ||
                    (&& old(lastVote).num < req.num && req.members <= old(curMembers) + {sender} && req.members <= clique && req.configured == conf
                     && (old(lastOnlineIn) == old(curNum) && curGenConnected && sender !in old(curMembers) ==> old(curMembers) <= req.members)))
      ensures lastVote == if resp.ok then req else old(lastVote)
      // a vote that turns recovery into dead stops receiving
      ensures receiveMode == if lastOnlineIn != curNum && me in curMembers && 2 * |curMembers| > |curConfigured| && old(lastVote).num == curNum && lastVote.num != curNum
                             then ModeDisabled else old(receiveMode)
      ensures Snap() == if resp.ok then old(Snap()).(vote := req) else old(Snap())
      ensures resp.ok ==> resp.loi == lastOnlineIn
      // a refusal asks for a higher number exactly when a higher or equal one is already taken here
      ensures !resp.ok ==> resp.lastVoteNum == (if curNum >= req.num || lastVote.num >= req.num then lastVote.num else 0)
      ensures resp.curGen == if curNum >= req.num then Some((Gen(curNum, curMembers, curConfigured), donors)) else None
    {
      resp := VoteResponse(me, req.num, false, 0, 0, None);
      if curNum >= req.num {
        return resp.(lastVoteNum := lastVote.num, curGen := Some((Gen(curNum, curMembers, curConfigured), donors)));
      }
      if lastVote == req {
        return resp.(ok := true, loi := lastOnlineIn);
      }
      if lastVote.num >= req.num {
        return resp.(lastVoteNum := lastVote.num);
      }
      if !(req.members <= curMembers + {sender}) || !(req.members <= clique) || req.configured != conf {
        return;
      }
      var oldStatus := GetCurrentStatusInGen();
      if oldStatus == Online && curGenConnected && sender !in curMembers && !(curMembers <= req.members) {
        return;
      }
      resp := resp.(ok := true, loi := lastOnlineIn);
      lastVote := req;
      var status := GetCurrentStatusInGen();
      if oldStatus == Recovery && status == Dead { receiveMode := ModeDisabled; }
    }

    /** SetCatchupDonor: the donor is kept unless a more advanced node is connected. */
    method SetCatchupDonor(v: View) returns (maxLoi: nat)
      requires v.Valid()
      modifies `receiveMode
      ensures IsDonorLoi(v, maxLoi)
      ensures receiveMode == old(receiveMode) ||
                (maxLoi == 0 && receiveMode == ModeNormal) ||
                (receiveMode.ModeDonor? && receiveMode.donor in v.connected)
      ensures maxLoi > 0 ==> receiveMode.ModeDonor? && receiveMode.donor in v.connected && v.Loi(receiveMode.donor) == maxLoi
      // no needless change of the donor, and otherwise the first of the most advanced
      ensures old(receiveMode).ModeDonor? && old(receiveMode).donor in v.connected && v.Loi(old(receiveMode).donor) == maxLoi ==>
                receiveMode == old(receiveMode)
      ensures receiveMode != old(receiveMode) && maxLoi > 0 ==>
                forall y :: y in v.connected && v.Loi(y) == maxLoi ==> receiveMode.donor <= y
    {
      maxLoi := 0;
      var best: NodeId := 0;
      for i := 0 to MaxNodes
        invariant forall y :: y in v.connected && y <= i ==> v.Loi(y) <= maxLoi
        invariant maxLoi == 0 ==> best == 0
        invariant maxLoi > 0 ==> best in v.connected && v.Loi(best) == maxLoi
        invariant maxLoi > 0 ==> forall y :: y in v.connected && y < best ==> v.Loi(y) < maxLoi
      {
        if i + 1 in v.connected && v.othersLoi[i] > maxLoi {
          best, maxLoi := i + 1, v.othersLoi[i];
        }
      }
      if || !receiveMode.ModeDonor?
         || receiveMode.donor !in v.connected
         || v.othersLoi[receiveMode.donor - 1] < maxLoi
      {
        receiveMode := if best == 0 then ModeNormal else ModeDonor(best);
      }
    }

    /** The end of CampaignMyself: the candidates, and the vote for them. */
    method Ballot(clique: set<NodeId>) returns (candidate: Option<Gen>)
      modifies `lastVote, `tour
      ensures candidate.None? <==> SameCandidates(me, old(Snap()), clique)
      ensures candidate.None? ==> Snap() == old(Snap())
      ensures candidate.Some? ==>
                candidate.value == CandidateGen(me, old(Snap()), clique, conf) && Snap() == Campaign(me, old(Snap()), clique, conf)
      // no ballot for the same members, unless re-voting helps a node that is not online and has promised a later generation
      ensures candidate.None? <==> (curMembers * clique) + {me} == curMembers && (lastOnlineIn == curNum || old(lastVote).num == curNum)
      ensures candidate.Some? ==>
                && candidate.value.members == (curMembers * clique) + {me} && candidate.value.configured == conf
                && candidate.value.num == (if candidate.value.members == old(lastVote).members && conf == old(lastVote).configured
                                           then old(lastVote).num else old(lastVote).num + 1)
                && lastVote == candidate.value && tour == Some(Tour(candidate.value, lastOnlineIn))
    {
      var status := GetCurrentStatusInGen();
      var members := (curMembers * clique) + {me};
      if members == curMembers && (status != Dead || lastVote.num == curNum) {
        return None;
      }
      var num: nat;
      if members == lastVote.members && conf == lastVote.configured {
        num := lastVote.num;
      } else {
        num := lastVote.num + 1;
        lastVote := Gen(num, members, conf);
      }
      candidate := Some(Gen(num, members, conf));
      tour := Some(Tour(candidate.value, lastOnlineIn));
    }

    /** CampaignMyself, without a referee. */
    method CampaignMyself(v: View) returns (candidate: Option<Gen>)
      requires v.Valid()
      modifies `lastVote, `tour, `receiveMode
      // a ballot: the replier runs and no basebackup is being completed, the node is not online seeing all members, it is in a quorum clique,
      // the candidates are others or re-voting helps, and whoever may lack transactions was caught up lately from the donor it has now
      ensures candidate.Some? <==>
                && v.backup.None? && v.replierLoaded
                && !(lastOnlineIn == curNum && curMembers <= v.connected)
                && 2 * |v.clique| > |conf| && me in v.clique
                && !((curMembers * v.clique) + {me} == curMembers && (lastOnlineIn == curNum || old(lastVote).num == curNum))
                && (me !in curMembers && lastOnlineIn != curNum && (exists y :: y in v.connected && lastOnlineIn < v.Loi(y)) ==>
                      v.caughtUpLately && v.caughtUpFrom.Some? && receiveMode == ModeDonor(v.caughtUpFrom.value))
      ensures candidate.None? ==> Snap() == old(Snap())
      ensures candidate.Some? ==>
                candidate.value == CandidateGen(me, old(Snap()), v.clique, conf) && Snap() == Campaign(me, old(Snap()), v.clique, conf)
      ensures candidate.Some? ==>
                && candidate.value.members == (curMembers * v.clique) + {me} && candidate.value.configured == conf
                && candidate.value.num == (if candidate.value.members == old(lastVote).members && conf == old(lastVote).configured
                                           then old(lastVote).num else old(lastVote).num + 1)
                && lastVote == candidate.value && tour == Some(Tour(candidate.value, lastOnlineIn))
      // nobody but oneself is added, and nobody outside the clique is kept
      ensures candidate.Some? ==> me in candidate.value.members && candidate.value.members <= v.clique * (curMembers + {me})
      // recovery from the donor of a basebackup; otherwise only a dead node changes whom it receives from: nobody, or one of the most advanced
      ensures v.backup.Some? ==> receiveMode == ModeDonor(v.backup.value)
      ensures v.backup.None? && receiveMode != old(receiveMode) ==>
                lastOnlineIn != curNum && !(me in curMembers && 2 * |curMembers| > |curConfigured| && old(lastVote).num == curNum)
      ensures v.backup.None? && v.replierLoaded && lastOnlineIn != curNum
              && !(me in curMembers && 2 * |curMembers| > |curConfigured| && old(lastVote).num == curNum) ==>
                if 2 * |v.clique| > |conf| && me in v.clique
                then forall y :: y in v.connected && v.Loi(y) > 0 ==>
                       receiveMode.ModeDonor? && receiveMode.donor in v.connected && v.Loi(y) <= v.Loi(receiveMode.donor)
                else receiveMode == ModeDisabled
    {
      if v.backup.Some? {
        receiveMode := ModeDonor(v.backup.value);
        return None;
      }
      if !v.replierLoaded {
        return None;
      }
      var status := GetCurrentStatusInGen();
      if status == Online && curMembers <= v.connected {
        return None;
      }
      if !Quorum(|conf|, |v.clique|) || me !in v.clique {
        if status == Dead {
          receiveMode := ModeDisabled;
        }
        return None;
      }
      if status == Dead {
        var donorLoi := SetCatchupDonor(v);
        LagKnown(v, donorLoi, lastOnlineIn);
        if me !in curMembers && lastOnlineIn < donorLoi {
          if v.caughtUpFrom.None? || receiveMode != ModeDonor(v.caughtUpFrom.value) {
            return None;
          }
          if !v.caughtUpLately {
            return None;
          }
        }
      }
      candidate := Ballot(v.clique);
    }

    /** The end of CampaignTour: somebody complained that last_vote is too low. */
    method BumpLastVote(maxLastVoteNum: nat)
      modifies `lastVote, `tour
      ensures Snap() == BumpVote(old(Snap()), maxLastVoteNum)
      ensures lastVote == (if maxLastVoteNum != 0 && maxLastVoteNum >= old(lastVote).num then Gen(maxLastVoteNum, {}, {}) else old(lastVote)) && tour == None
    {
      if maxLastVoteNum != 0 && maxLastVoteNum >= lastVote.num {
        lastVote := Gen(maxLastVoteNum, {}, {});
      }
      tour := None;
    }
  }

  // ----- counting the votes -----

  /** last_online_in of everybody who voted for num. */
  function OkLois(msgs: seq<VoteResponse>, num: nat): map<NodeId, nat> {
    if msgs == [] then map[]
    else
      var rest, m := OkLois(msgs[..|msgs| - 1], num), msgs[|msgs| - 1];
      if m.genNum == num && m.ok then rest[m.sender := m.loi] else rest
  }

  lemma {:induction false} OkLoisKeys(msgs: seq<VoteResponse>, num: nat)
    ensures forall y :: y in OkLois(msgs, num) <==>
              exists i :: 0 <= i < |msgs| && msgs[i].sender == y && msgs[i].genNum == num && msgs[i].ok
  {
    if msgs != [] {
      var init := msgs[..|msgs| - 1];
      OkLoisKeys(init, num);
      forall y
        ensures y in OkLois(msgs, num) <==>
                  exists i :: 0 <= i < |msgs| && msgs[i].sender == y && msgs[i].genNum == num && msgs[i].ok
      {
        if i :| 0 <= i < |init| && init[i].sender == y && init[i].genNum == num && init[i].ok {
          assert msgs[i] == init[i];
        }
      }
    }
  }

  /** gather: one message per participant. */
  predicate OnePerSender(me: NodeId, msgs: seq<VoteResponse>) {
    && (forall i :: 0 <= i < |msgs| ==> msgs[i].sender != me)
    && (forall i, j :: 0 <= i < j < |msgs| ==> msgs[i].sender != msgs[j].sender)
  }

  /** What dmq_pop_nb yields: a message, a dead connection, or, after a fruitless wait, the senders found lost and the current generation. */
  datatype Popped = Got(resp: VoteResponse) | DeadConn(node: NodeId) | WouldBlock(failed: set<NodeId>, curNum: nat)

  datatype Gathering = Complete | Switched | Waiting

  predicate Answers(p: Popped, y: NodeId, num: nat) {
    p.Got? && p.resp.sender == y && p.resp.genNum == num
  }

  predicate Loses(p: Popped, y: NodeId) {
    (p.DeadConn? && p.node == y) || (p.WouldBlock? && y in p.failed)
  }

  /** A wait after which the generation was no longer the one asked for; genNum 0 is MtmInvalidGenNum. */
  predicate Leaves(p: Popped, genNum: nat) {
    genNum != 0 && p.WouldBlock? && p.curNum != genNum
  }

  /** Node y has its answer among msgs, or was lost. */
  ghost predicate Settled(msgs: seq<VoteResponse>, pops: seq<Popped>, y: NodeId) {
    (exists i :: 0 <= i < |msgs| && msgs[i].sender == y) || LostIn(pops, y)
  }

  ghost predicate LostIn(pops: seq<Popped>, y: NodeId) {
    exists p :: p in pops && Loses(p, y)
  }

  lemma SettledStays(msgs: seq<VoteResponse>, m: VoteResponse, pops: seq<Popped>, y: NodeId)
    ensures Settled(msgs + [m], pops, y) <==> Settled(msgs, pops, y) || m.sender == y
  {
    var msgs' := msgs + [m];
    assert msgs'[|msgs|] == m;
    if i :| 0 <= i < |msgs| && msgs[i].sender == y {
      assert msgs'[i].sender == y;
    }
  }

  /** gather with CampaignerGatherHook: an answer of the current tour from everybody asked who is not lost. */
  method Gather(me: NodeId, cohort: set<NodeId>, num: nat, genNum: nat, pops: seq<Popped>)
    returns (msgs: seq<VoteResponse>, how: Gathering)
    requires me !in cohort
    ensures OnePerSender(me, msgs)
    ensures forall i :: 0 <= i < |msgs| ==> msgs[i].sender in cohort && msgs[i].genNum == num && Got(msgs[i]) in pops
    ensures how == Complete ==> forall y :: y in cohort ==> (exists i :: 0 <= i < |msgs| && msgs[i].sender == y) || (exists p :: p in pops && Loses(p, y))
    ensures how == Waiting ==> exists y :: y in cohort && forall p :: p in pops ==> !Answers(p, y, num) && !Loses(p, y) && !Leaves(p, genNum)
    ensures how == Switched ==> exists p :: p in pops && Leaves(p, genNum)
  {
    msgs := [];
    var participants, k := cohort, 0;
    while participants != {} && k < |pops|
      invariant k <= |pops| && participants <= cohort && OnePerSender(me, msgs)
      invariant forall i :: 0 <= i < |msgs| ==>
                  msgs[i].sender in cohort - participants && msgs[i].genNum == num && Got(msgs[i]) in pops
      invariant forall y :: y in cohort && y !in participants ==> Settled(msgs, pops, y)
      invariant forall y, j :: y in participants && 0 <= j < k ==> !Answers(pops[j], y, num) && !Loses(pops[j], y)
      invariant forall j :: 0 <= j < k ==> !Leaves(pops[j], genNum)
    {
      match pops[k] {
        case Got(m) =>
          // only participants' queues are read, and stale answers are thrown away
          if m.sender in participants && m.genNum == num {
            forall y {
              SettledStays(msgs, m, pops, y);
            }
            msgs := msgs + [m];
            participants := participants - {m.sender};
          }
        case DeadConn(node) =>
          assert Loses(pops[k], node) && LostIn(pops, node);
          participants := participants - {node};
        case WouldBlock(failed, curNum) =>
          forall y | y in failed
            ensures LostIn(pops, y)
          {
            assert Loses(pops[k], y);
          }
          participants := participants - failed;
          if genNum != 0 && curNum != genNum {
            assert Leaves(pops[k], genNum);
            return msgs, Switched;
          }
      }
      k := k + 1;
    }
    how := if participants == {} then Complete else Waiting;
    assert how == Complete ==> forall y :: y in cohort ==> Settled(msgs, pops, y);
  }

  predicate IsMaxRefused(msgs: seq<VoteResponse>, m: nat) {
    && (forall i :: 0 <= i < |msgs| && !msgs[i].ok ==> msgs[i].lastVoteNum <= m)
    && (m == 0 || exists i :: 0 <= i < |msgs| && !msgs[i].ok && msgs[i].lastVoteNum == m)
  }

  predicate IsMaxLoi(lois: map<NodeId, nat>, max: nat) {
    && (forall z :: z in lois ==> lois[z] <= max)
    && (exists z :: z in lois && lois[z] == max)
  }

  lemma AdvancedHaveMax(lois: map<NodeId, nat>, max: nat)
    requires IsMaxLoi(lois, max)
    ensures MostAdvanced(lois) != {}
    ensures forall x :: x in MostAdvanced(lois) <==> x in lois && lois[x] == max
  {
    var z :| z in lois && lois[z] == max;
    assert z in MostAdvanced(lois);
  }

  lemma NewVoterMax(lois: map<NodeId, nat>, y: NodeId, loi: nat, max: nat)
    requires y !in lois && IsMaxLoi(lois, max)
    ensures IsMaxLoi(lois[y := loi], if loi > max then loi else max)
    ensures MostAdvanced(lois[y := loi]) ==
              if loi == max then MostAdvanced(lois) + {y} else if loi > max then {y} else MostAdvanced(lois)
  {
    var z :| z in lois && lois[z] == max;
    var lois' := lois[y := loi];
    assert z in lois' && lois'[z] == max && y in lois';
    AdvancedHaveMax(lois, max);
    AdvancedHaveMax(lois', if loi > max then loi else max);
  }

  lemma RefusedStep(msgs: seq<VoteResponse>, i: nat, m: nat)
    requires i < |msgs| && IsMaxRefused(msgs[..i], m)
    ensures IsMaxRefused(msgs[..i + 1], if !msgs[i].ok && msgs[i].lastVoteNum > m then msgs[i].lastVoteNum else m)
  {
    var a, b := msgs[..i], msgs[..i + 1];
    assert b == a + [msgs[i]];
    if m != 0 {
      var k :| 0 <= k < |a| && !a[k].ok && a[k].lastVoteNum == m;
      assert b[k] == a[k];
    }
    assert b[i] == msgs[i];
  }

  lemma FreshSender(me: NodeId, num: nat, myLoi: nat, msgs: seq<VoteResponse>, i: nat)
    requires OnePerSender(me, msgs) && i < |msgs|
    ensures msgs[i].sender !in OkLois(msgs[..i], num)[me := myLoi]
    ensures OkLois(msgs[..i + 1], num)[me := myLoi] ==
              if msgs[i].genNum == num && msgs[i].ok
              then OkLois(msgs[..i], num)[me := myLoi][msgs[i].sender := msgs[i].loi]
              else OkLois(msgs[..i], num)[me := myLoi]
  {
    assert msgs[..i + 1][..i] == msgs[..i];
    OkLoisKeys(msgs[..i], num);
  }

  /** The counting loop of CampaignTour: votes and donors of the candidate. */
  method TallyVotes(me: NodeId, num: nat, myLoi: nat, msgs: seq<VoteResponse>)
    returns (nvotes: nat, donors: set<NodeId>, maxLoi: nat, maxRefused: nat)
    requires OnePerSender(me, msgs)
    ensures nvotes == |OkLois(msgs, num)[me := myLoi]|
    ensures donors == MostAdvanced(OkLois(msgs, num)[me := myLoi]) && donors != {}
    ensures IsMaxLoi(OkLois(msgs, num)[me := myLoi], maxLoi)
    ensures IsMaxRefused(msgs, maxRefused)
    ensures forall i :: 0 <= i < |msgs| && !msgs[i].ok ==> msgs[i].lastVoteNum <= maxRefused
    ensures maxRefused == 0 || exists i :: 0 <= i < |msgs| && !msgs[i].ok && msgs[i].lastVoteNum == maxRefused
    // in words: the donors are the voters, oneself among them, whose last_online_in no other voter exceeds
    ensures maxLoi >= myLoi && (me in donors <==> maxLoi == myLoi)
    ensures forall i :: 0 <= i < |msgs| && msgs[i].genNum == num && msgs[i].ok ==> msgs[i].loi <= maxLoi
    ensures forall i :: 0 <= i < |msgs| ==> (msgs[i].sender in donors <==> msgs[i].genNum == num && msgs[i].ok && msgs[i].loi == maxLoi)
    ensures forall y :: y in donors ==> y == me || exists i :: 0 <= i < |msgs| && msgs[i].sender == y
    ensures nvotes == 1 + |set i | 0 <= i < |msgs| && msgs[i].genNum == num && msgs[i].ok|
  {
    nvotes, donors, maxLoi, maxRefused := 1, {me}, myLoi, 0;
    ghost var lois: map<NodeId, nat> := map[me := myLoi];
    for i := 0 to |msgs|
      invariant lois == OkLois(msgs[..i], num)[me := myLoi]
      invariant nvotes == |lois| && donors == MostAdvanced(lois) && IsMaxLoi(lois, maxLoi)
      invariant IsMaxRefused(msgs[..i], maxRefused)
    {
      var msg := msgs[i];
      FreshSender(me, num, myLoi, msgs, i);
      RefusedStep(msgs, i, maxRefused);
      if msg.genNum == num && msg.ok {
        nvotes := nvotes + 1;
        NewVoterMax(lois, msg.sender, msg.loi, maxLoi);
        lois := lois[msg.sender := msg.loi];
        if msg.loi == maxLoi {
          donors := donors + {msg.sender};
        } else if msg.loi > maxLoi {
          donors := {msg.sender};
          maxLoi := msg.loi;
        }
      }
      if !msg.ok && msg.lastVoteNum > maxRefused {
        maxRefused := msg.lastVoteNum;
      }
    }
    assert msgs[..|msgs|] == msgs;
    AdvancedHaveMax(lois, maxLoi);
    TallyInWords(me, num, myLoi, msgs, maxLoi);
  }

  predicate VotesOk(msgs: seq<VoteResponse>, num: nat, i: nat)
    requires i < |msgs|
  {
    msgs[i].genNum == num && msgs[i].ok
  }

  lemma {:induction false} OkLoisAt(me: NodeId, msgs: seq<VoteResponse>, num: nat, i: nat)
    requires OnePerSender(me, msgs) && i < |msgs|
    ensures msgs[i].sender in OkLois(msgs, num) <==> VotesOk(msgs, num, i)
    ensures VotesOk(msgs, num, i) ==> OkLois(msgs, num)[msgs[i].sender] == msgs[i].loi
  {
    var init := msgs[..|msgs| - 1];
    if i < |init| {
      OkLoisAt(me, init, num, i);
    } else {
      OkLoisKeys(init, num);
    }
  }

  function Voted(msgs: seq<VoteResponse>, num: nat): set<nat> {
    set i | 0 <= i < |msgs| && msgs[i].genNum == num && msgs[i].ok
  }

  lemma VotedNext(init: seq<VoteResponse>, m: VoteResponse, num: nat)
    ensures Voted(init + [m], num) == if m.genNum == num && m.ok then Voted(init, num) + {|init|} else Voted(init, num)
  {
    var msgs := init + [m];
    assert msgs[|init|] == m && forall i :: 0 <= i < |init| ==> msgs[i] == init[i];
  }

  lemma {:induction false} OkLoisSize(me: NodeId, msgs: seq<VoteResponse>, num: nat)
    requires OnePerSender(me, msgs)
    ensures |OkLois(msgs, num).Keys| == |Voted(msgs, num)|
  {
    if msgs != [] {
      var init, last := msgs[..|msgs| - 1], msgs[|msgs| - 1];
      OkLoisSize(me, init, num);
      assert msgs == init + [last];
      VotedNext(init, last, num);
      SenderNew(me, msgs, num);
    }
  }

  lemma SenderNew(me: NodeId, msgs: seq<VoteResponse>, num: nat)
    requires OnePerSender(me, msgs) && msgs != []
    ensures msgs[|msgs| - 1].sender !in OkLois(msgs[..|msgs| - 1], num)
  {
    OkLoisKeys(msgs[..|msgs| - 1], num);
  }

  /** The tally, told of the messages. */
  lemma TallyInWords(me: NodeId, num: nat, myLoi: nat, msgs: seq<VoteResponse>, maxLoi: nat)
    requires OnePerSender(me, msgs) && IsMaxLoi(OkLois(msgs, num)[me := myLoi], maxLoi)
    ensures var donors := MostAdvanced(OkLois(msgs, num)[me := myLoi]);
            && maxLoi >= myLoi && (me in donors <==> maxLoi == myLoi)
            && (forall i :: 0 <= i < |msgs| && msgs[i].genNum == num && msgs[i].ok ==> msgs[i].loi <= maxLoi)
            && (forall i :: 0 <= i < |msgs| ==> (msgs[i].sender in donors <==> msgs[i].genNum == num && msgs[i].ok && msgs[i].loi == maxLoi))
            && (forall y :: y in donors ==> y == me || exists i :: 0 <= i < |msgs| && msgs[i].sender == y)
    ensures |OkLois(msgs, num)[me := myLoi]| == 1 + |set i | 0 <= i < |msgs| && msgs[i].genNum == num && msgs[i].ok|
  {
    var lois := OkLois(msgs, num)[me := myLoi];
    AdvancedHaveMax(lois, maxLoi);
    OkLoisKeys(msgs, num);
    OkLoisSize(me, msgs, num);
    forall i | 0 <= i < |msgs|
      ensures msgs[i].sender in lois <==> VotesOk(msgs, num, i)
      ensures VotesOk(msgs, num, i) ==> lois[msgs[i].sender] == msgs[i].loi
    {
      OkLoisAt(me, msgs, num, i);
    }
    assert me !in OkLois(msgs, num) && lois.Keys == OkLois(msgs, num).Keys + {me};
    assert |lois| == |lois.Keys|;
    assert Voted(msgs, num) == set i | 0 <= i < |msgs| && msgs[i].genNum == num && msgs[i].ok;
  }
}
