/**
  Large transactions go to the executor through a spill file: the receiver's buffer is cut into
  chunks written to a file, and a descriptor tells the executor to read them back
  (src/pglogical_receiver.c, src/pglogical_apply.c).  Whatever the threshold, the executor performs
  the same actions.
 */
module Spill {

  /** One replicated message: its first byte and `extra` more; only a commit ends the transaction. */
  datatype Stmt = Stmt(id: nat, extra: nat, commit: bool)

  /** One byte of a buffer, of the file or of the descriptor. */
  datatype Cell = Op(st: Stmt) | Fill | Close | Open | FileMark | Word(n: nat, k: nat)

  // ----- encodings -----

  function Fills(n: nat): (s: seq<Cell>)
    ensures |s| == n
  {
    if n == 0 then [] else Fills(n - 1) + [Fill]
  }

  function Enc(st: Stmt): (s: seq<Cell>)
    ensures |s| == 1 + st.extra && s[0] == Op(st)
  {
    [Op(st)] + Fills(st.extra)
  }

  /** pq_sendint(..., 4) */
  function Int4(n: nat): (s: seq<Cell>)
    ensures |s| == 4
  {
    [Word(n, 0), Word(n, 1), Word(n, 2), Word(n, 3)]
  }

  function EncAll(c: seq<Stmt>): seq<Cell> {
    if c == [] then [] else EncAll(c[..|c| - 1]) + Enc(c[|c| - 1])
  }

  /** A chunk as it is in the file. */
  function Body(c: seq<Stmt>): seq<Cell> {
    EncAll(c) + [Close]
  }

  function Bodies(cs: seq<seq<Stmt>>): seq<Cell> {
    if cs == [] then [] else Bodies(cs[..|cs| - 1]) + Body(cs[|cs| - 1])
  }

  /** A chunk as it is in the descriptor. */
  function Head(c: seq<Stmt>): (s: seq<Cell>)
    ensures |s| == 5
  {
    [Open] + Int4(|Body(c)|)
  }

  function Heads(cs: seq<seq<Stmt>>): seq<Cell> {
    if cs == [] then [] else Heads(cs[..|cs| - 1]) + Head(cs[|cs| - 1])
  }

  function FileHeader(sender: nat, file_id: nat): (s: seq<Cell>)
    ensures |s| == 9
  {
    [FileMark] + Int4(sender) + Int4(file_id)
  }

  function Flatten(cs: seq<seq<Stmt>>): seq<Stmt> {
    if cs == [] then [] else Flatten(cs[..|cs| - 1]) + cs[|cs| - 1]
  }

  /** What the executor gets: the buffer itself, or a descriptor and a file. */
  datatype Job = Job(work: seq<Cell>, file: seq<Cell>)

  /** How a job carries a transaction. */
  datatype Cut = Whole(stmts: seq<Stmt>) | Chunks(sender: nat, file_id: nat, cs: seq<seq<Stmt>>)

  ghost predicate Carries(job: Job, cut: Cut) {
    match cut
    case Whole(stmts) => job.work == EncAll(stmts)
    case Chunks(sender, file_id, cs) => job == Job(FileHeader(sender, file_id) + Heads(cs), Bodies(cs))
  }

  function Content(cut: Cut): seq<Stmt> {
    match cut
    case Whole(stmts) => stmts
    case Chunks(_, _, cs) => Flatten(cs)
  }

  /** The job carries stmts, whole or in chunks. */
  ghost predicate Delivers(job: Job, stmts: seq<Stmt>) {
    exists cut :: Carries(job, cut) && Content(cut) == stmts
  }

  // ----- the receiver -----

  lemma EncNext(c: seq<Stmt>, st: Stmt)
    ensures EncAll(c + [st]) == EncAll(c) + Enc(st)
  {
    assert (c + [st])[..|c|] == c;
  }

  lemma ChunkNext(cs: seq<seq<Stmt>>, c: seq<Stmt>)
    ensures Heads(cs + [c]) == Heads(cs) + Head(c)
    ensures Bodies(cs + [c]) == Bodies(cs) + Body(c)
    ensures Flatten(cs + [c]) == Flatten(cs) + c
  {
    assert (cs + [c])[..|cs|] == cs;
  }

  /** The receiver's variables while it collects a transaction. */
  ghost predicate Collected(buf: seq<Cell>, info: seq<Cell>, file: seq<Cell>, spilled: bool, sender: nat, file_id: nat,
                            cs: seq<seq<Stmt>>, cur: seq<Stmt>, stmts: seq<Stmt>) {
    && buf == EncAll(cur) && Flatten(cs) + cur == stmts
    && (if spilled then info == FileHeader(sender, file_id) + Heads(cs) && file == Bodies(cs) else info == [] && file == [] && cs == [])
  }

  class Receiver {
    var buf: seq<Cell>
    var info: seq<Cell>
    /** The file being written; spilled is spill_file >= 0. */
    var file: seq<Cell>
    var spilled: bool
    const sender: nat
    var file_id: nat
    const threshold: int
    ghost var cs: seq<seq<Stmt>>
    ghost var cur: seq<Stmt>

    constructor (sender: nat, threshold: int)
      ensures Valid([]) && Bounded() && this.threshold == threshold && this.sender == sender
    {
      buf, info, file, spilled, file_id := [], [], [], false, 0;
      this.sender, this.threshold := sender, threshold;
      cs, cur := [], [];
    }

    /** stmts of the current transaction have been collected. */
    ghost predicate Valid(stmts: seq<Stmt>)
      reads this
    {
      Collected(buf, info, file, spilled, sender, file_id, cs, cur, stmts)
    }

    /** The buffer is below the threshold, or holds one message after a chunk was written. */
    ghost predicate Bounded()
      reads this
    {
      buf == [] || |buf| + 1 < threshold || (spilled && |cur| == 1)
    }

    /** MtmCreateSpillFile, and its mark in the descriptor. */
    method OpenFile(ghost stmts: seq<Stmt>)
      requires Valid(stmts) && !spilled
      modifies this
      ensures Valid(stmts) && spilled && cs == old(cs) && cur == old(cur)
      ensures buf == old(buf) && file == old(file) && file_id == old(file_id) + 1
      ensures info == [FileMark] + Int4(sender) + Int4(file_id)
    {
      file_id := file_id + 1;
      info := FileHeader(sender, file_id);
      spilled := true;
      assert info == FileHeader(sender, file_id) + Heads([]);
    }

    /** Moves the buffer to the spill file as one chunk. */
    method SpillChunk(ghost stmts: seq<Stmt>)
      requires Valid(stmts) && spilled
      modifies this
      ensures Valid(stmts) && spilled && cur == [] && file_id == old(file_id) && cs == old(cs) + [old(cur)]
      ensures buf == [] && file == old(file) + old(buf) + [Close] && info == old(info) + [Open] + Int4(|old(buf)| + 1)
    {
      ChunkNext(cs, cur);
      buf := buf + [Close];
      info := info + [Open] + Int4(|buf|);
      file := file + buf;
      assert info == FileHeader(sender, file_id) + (Heads(cs) + Head(cur));
      cs, cur := cs + [cur], [];
      buf := [];
    }

    /** A message of the transaction arrives. */
    method Append(st: Stmt, ghost stmts: seq<Stmt>)
      requires Valid(stmts)
      modifies this
      ensures Valid(stmts + [st]) && (old(Bounded()) ==> Bounded())
      // below the threshold the message joins the buffer; otherwise the buffer becomes a chunk of the file, and the message is alone
      ensures if |old(buf)| + 1 + st.extra + 1 < threshold
              then buf == old(buf) + Enc(st) && spilled == old(spilled) && info == old(info) && file == old(file)
              else buf == Enc(st) && spilled && file == old(file) + old(buf) + [Close]
      ensures |buf| + 1 < threshold || buf == Enc(st)
    {
      if |buf| + |Enc(st)| + 1 >= threshold {
        if !spilled {
          OpenFile(stmts);
        }
        SpillChunk(stmts);
      }
      EncNext(cur, st);
      buf := buf + Enc(st);
      assert Flatten(cs) + (cur + [st]) == (Flatten(cs) + cur) + [st];
      cur := cur + [st];
    }

    /** After the commit: the job for the executor. */
    method Finish(ghost stmts: seq<Stmt>) returns (job: Job)
      requires Valid(stmts)
      modifies this
      ensures Delivers(job, stmts) && Valid([]) && Bounded() && !spilled
      ensures if old(spilled)
              then job.work == old(info) + [Open] + Int4(|old(buf)| + 1) && job.file == old(file) + old(buf) + [Close]
              else job == Job(old(buf), [])
      // a job that was not spilled is below the threshold
      ensures old(Bounded()) && !old(spilled) ==> job.work == [] || |job.work| + 1 < threshold
    {
      if spilled {
        SpillChunk(stmts);
        job := Job(info, file);
        ChunksDeliver(job, sender, file_id, cs, cur, stmts);
        spilled, info, file := false, [], [];
      } else {
        job := Job(buf, []);
        WholeDelivers(job, cs, cur, stmts);
      }
      buf := [];
      cs, cur := [], [];
    }
  }

  lemma ChunksDeliver(job: Job, sender: nat, file_id: nat, cs: seq<seq<Stmt>>, cur: seq<Stmt>, stmts: seq<Stmt>)
    requires Flatten(cs) + cur == stmts && cur == [] && job == Job(FileHeader(sender, file_id) + Heads(cs), Bodies(cs))
    ensures Delivers(job, stmts)
  {
    assert Flatten(cs) + cur == Flatten(cs);
    assert Carries(job, Chunks(sender, file_id, cs));
  }

  lemma WholeDelivers(job: Job, cs: seq<seq<Stmt>>, cur: seq<Stmt>, stmts: seq<Stmt>)
    requires Flatten(cs) + cur == stmts && cs == [] && job.work == EncAll(cur)
    ensures Delivers(job, stmts)
  {
    assert Flatten(cs) + cur == cur;
    assert Carries(job, Whole(stmts));
  }

  /** The receiver on one whole transaction. */
  method ReceiveTransaction(stmts: seq<Stmt>, sender: nat, threshold: int) returns (job: Job)
    ensures Delivers(job, stmts)
    ensures job.file != [] || job.work == [] || |job.work| + 1 < threshold
  {
    var r := new Receiver(sender, threshold);
    assert stmts[..0] == [];
    for i := 0 to |stmts|
      invariant fresh(r) && r.Valid(stmts[..i]) && r.Bounded() && r.threshold == threshold
    {
      assert stmts[..i + 1] == stmts[..i] + [stmts[i]];
      r.Append(stmts[i], stmts[..i]);
    }
    assert stmts[..|stmts|] == stmts;
    job := r.Finish(stmts);
  }

  // ----- the executor -----

  lemma {:induction false} EncPrefix(c: seq<Stmt>, k: nat)
    requires k <= |c|
    ensures |EncAll(c[..k])| <= |EncAll(c)| && EncAll(c)[..|EncAll(c[..k])|] == EncAll(c[..k])
  {
    if k == |c| {
      assert c[..k] == c;
    } else {
      var init := c[..|c| - 1];
      EncPrefix(init, k);
      assert init[..k] == c[..k];
    }
  }

  lemma OpAt(c: seq<Stmt>, k: nat)
    requires k < |c|
    ensures |EncAll(c[..k])| < |EncAll(c)| && EncAll(c)[|EncAll(c[..k])|] == Op(c[k])
    ensures |EncAll(c[..k + 1])| == |EncAll(c[..k])| + 1 + c[k].extra
  {
    assert c[..k + 1] == c[..k] + [c[k]];
    EncNext(c[..k], c[k]);
    EncPrefix(c, k + 1);
    var e := EncAll(c[..k + 1]);
    assert e[|EncAll(c[..k])|] == Op(c[k]);
    assert EncAll(c)[..|e|][|EncAll(c[..k])|] == Op(c[k]);
  }

  lemma {:induction false} HeadAt(cs: seq<seq<Stmt>>, j: nat)
    requires j < |cs|
    ensures |Heads(cs)| == 5 * |cs| && Heads(cs)[5 * j..5 * j + 5] == Head(cs[j])
  {
    var init := cs[..|cs| - 1];
    if j < |init| {
      HeadAt(init, j);
    } else if init != [] {
      HeadAt(init, 0);
    }
  }

  lemma {:induction false} BodyAt(cs: seq<seq<Stmt>>, j: nat)
    requires j < |cs|
    ensures |Bodies(cs[..j + 1])| == |Bodies(cs[..j])| + |Body(cs[j])| <= |Bodies(cs)|
    ensures Bodies(cs)[|Bodies(cs[..j])|..|Bodies(cs[..j + 1])|] == Body(cs[j])
  {
    assert cs[..j + 1][..j] == cs[..j];
    var at, end := |Bodies(cs[..j])|, |Bodies(cs[..j + 1])|;
    if j + 1 == |cs| {
      assert cs[..j + 1] == cs;
    } else {
      var init := cs[..|cs| - 1];
      assert init[..j] == cs[..j] && init[..j + 1] == cs[..j + 1] && init[j] == cs[j];
      BodyAt(init, j);
      assert Bodies(cs)[at..end] == Bodies(init)[at..end];
    }
  }

  lemma {:induction false} FlattenPrefix(cs: seq<seq<Stmt>>, j: nat, k: nat)
    requires j < |cs| && k <= |cs[j]|
    ensures |Flatten(cs[..j])| + |cs[j]| <= |Flatten(cs)| && Flatten(cs)[..|Flatten(cs[..j])| + k] == Flatten(cs[..j]) + cs[j][..k]
  {
    if j + 1 == |cs| {
      assert cs[..j] == cs[..|cs| - 1];
    } else {
      var init := cs[..|cs| - 1];
      FlattenPrefix(init, j, k);
      assert init[..j] == cs[..j];
    }
  }

  /** The executor's variables. */
  datatype Exec = Exec(data: seq<Cell>, cursor: nat, save: nat, filePos: nat, acts: seq<Stmt>)

  /** Where it is: in the whole buffer, before the file mark, before a chunk's head, or inside a chunk. */
  datatype Place = InWhole(k: nat) | AtStart | AtHead(j: nat) | InChunk(j: nat, k: nat)

  ghost predicate PlaceOK(job: Job, cut: Cut, e: Exec, p: Place) {
    match p
    case InWhole(k) =>
      cut.Whole? && e.data == job.work && k <= |cut.stmts| && e.cursor == |EncAll(cut.stmts[..k])| && e.acts == cut.stmts[..k]
    case AtStart =>
      cut.Chunks? && e.data == job.work && e.cursor == 0 && e.filePos == 0 && e.acts == []
    case AtHead(j) =>
      && cut.Chunks? && e.data == job.work && j <= |cut.cs|
      && e.cursor == 9 + 5 * j && e.filePos == |Bodies(cut.cs[..j])| && e.acts == Flatten(cut.cs[..j])
    case InChunk(j, k) =>
      && cut.Chunks? && j < |cut.cs| && e.data == Body(cut.cs[j]) && k <= |cut.cs[j]| && e.cursor == |EncAll(cut.cs[j][..k])|
      && e.save == 9 + 5 * (j + 1) && e.filePos == |Bodies(cut.cs[..j + 1])| && e.acts == Flatten(cut.cs[..j]) + cut.cs[j][..k]
  }

  /** One turn of MtmExecutor's loop; None if the input is not understood. */
  function Turn(job: Job, e: Exec): Option<Exec> {
    if e.cursor >= |e.data| then None
    else
      match e.data[e.cursor]
      case Op(st) => Some(e.(cursor := e.cursor + 1 + st.extra, acts := e.acts + [st]))
      case FileMark => Some(e.(cursor := e.cursor + 9))
      case Open =>
        if e.cursor + 5 <= |e.data| && e.data[e.cursor + 1].Word? && e.filePos + e.data[e.cursor + 1].n <= |job.file| then
          var n := e.data[e.cursor + 1].n;
          Some(Exec(job.file[e.filePos..e.filePos + n], 0, e.cursor + 5, e.filePos + n, e.acts))
        else None
      case Close => Some(e.(data := job.work, cursor := e.save))
      case Fill => None
      case Word(_, _) => None
  }

  datatype Option<T> = None | Some(value: T)

  /** Exactly the last message is a commit. */
  ghost predicate Transaction(stmts: seq<Stmt>) {
    stmts != [] && forall i :: 0 <= i < |stmts| ==> (stmts[i].commit <==> i == |stmts| - 1)
  }

  /** What is left, as a pair that decreases with every turn. */
  function Left(cut: Cut, p: Place): (nat, nat) {
    match p
    case InWhole(k) => if cut.Whole? && k <= |cut.stmts| then (0, |cut.stmts| - k) else (0, 0)
    case AtStart => if cut.Chunks? then (|cut.cs| + 1, 0) else (0, 0)
    case AtHead(j) => if cut.Chunks? && j < |cut.cs| then (|cut.cs| - j, |cut.cs[j]| + 2) else (0, 0)
    case InChunk(j, k) => if cut.Chunks? && j < |cut.cs| && k <= |cut.cs[j]| then (|cut.cs| - j, |cut.cs[j]| - k + 1) else (0, 0)
  }

  predicate Fewer(a: (nat, nat), b: (nat, nat)) {
    a.0 < b.0 || (a.0 == b.0 && a.1 < b.1)
  }

  lemma TurnWhole(job: Job, cut: Cut, e: Exec, k: nat)
    requires Carries(job, cut) && PlaceOK(job, cut, e, InWhole(k)) && k < |Content(cut)|
    ensures Turn(job, e).Some? && PlaceOK(job, cut, Turn(job, e).value, InWhole(k + 1))
  {
    OpAt(cut.stmts, k);
    assert cut.stmts[..k + 1] == cut.stmts[..k] + [cut.stmts[k]];
  }

  lemma TurnHead(job: Job, cut: Cut, e: Exec, j: nat)
    requires Carries(job, cut) && PlaceOK(job, cut, e, AtHead(j)) && j < |cut.cs|
    ensures Turn(job, e).Some? && PlaceOK(job, cut, Turn(job, e).value, InChunk(j, 0))
  {
    WorkHead(cut.sender, cut.file_id, cut.cs, j);
    BodyAt(cut.cs, j);
    assert cut.cs[j][..0] == [];
    assert Flatten(cut.cs[..j]) + [] == Flatten(cut.cs[..j]);
  }

  lemma WorkHead(sender: nat, file_id: nat, cs: seq<seq<Stmt>>, j: nat)
    requires j < |cs|
    ensures var work := FileHeader(sender, file_id) + Heads(cs);
            9 + 5 * j + 5 <= |work| && work[9 + 5 * j] == Open && work[9 + 5 * j + 1] == Word(|Body(cs[j])|, 0)
  {
    HeadAt(cs, j);
    assert Heads(cs)[5 * j..5 * j + 5][0] == Open && Heads(cs)[5 * j..5 * j + 5][1] == Word(|Body(cs[j])|, 0);
  }

  lemma TurnChunk(job: Job, cut: Cut, e: Exec, j: nat, k: nat)
    requires Carries(job, cut) && PlaceOK(job, cut, e, InChunk(j, k)) && k < |cut.cs[j]|
    ensures Turn(job, e).Some? && PlaceOK(job, cut, Turn(job, e).value, InChunk(j, k + 1))
  {
    var c := cut.cs[j];
    OpAt(c, k);
    assert Body(c)[|EncAll(c[..k])|] == Op(c[k]);
    var e' := e.(cursor := e.cursor + 1 + c[k].extra, acts := e.acts + [c[k]]);
    assert Turn(job, e) == Some(e');
    assert c[..k + 1] == c[..k] + [c[k]];
    assert e'.acts == Flatten(cut.cs[..j]) + c[..k + 1];
  }

  lemma TurnClose(job: Job, cut: Cut, e: Exec, j: nat)
    requires Carries(job, cut) && cut.Chunks? && j < |cut.cs| && PlaceOK(job, cut, e, InChunk(j, |cut.cs[j]|))
    ensures Turn(job, e).Some? && PlaceOK(job, cut, Turn(job, e).value, AtHead(j + 1))
  {
    var c := cut.cs[j];
    assert c[..|c|] == c;
    assert cut.cs[..j + 1] == cut.cs[..j] + [c];
    ChunkNext(cut.cs[..j], c);
  }

  /** While the commit has not been performed, the next turn makes progress. */
  lemma TurnOK(job: Job, cut: Cut, e: Exec, p: Place) returns (p': Place)
    requires Carries(job, cut) && PlaceOK(job, cut, e, p) && |e.acts| < |Content(cut)|
    ensures Turn(job, e).Some? && PlaceOK(job, cut, Turn(job, e).value, p') && Fewer(Left(cut, p'), Left(cut, p))
  {
    match p
    case InWhole(k) =>
      TurnWhole(job, cut, e, k);
      p' := InWhole(k + 1);
    case AtStart =>
      p' := AtHead(0);
      assert cut.cs[..0] == [];
    case AtHead(j) =>
      FlattenAll(cut.cs, j);
      TurnHead(job, cut, e, j);
      p' := InChunk(j, 0);
    case InChunk(j, k) =>
      p' := TurnInside(job, cut, e, j, k);
  }

  lemma TurnInside(job: Job, cut: Cut, e: Exec, j: nat, k: nat) returns (p': Place)
    requires Carries(job, cut) && PlaceOK(job, cut, e, InChunk(j, k))
    ensures Turn(job, e).Some? && PlaceOK(job, cut, Turn(job, e).value, p') && Fewer(Left(cut, p'), Left(cut, InChunk(j, k)))
  {
    if k < |cut.cs[j]| {
      TurnChunk(job, cut, e, j, k);
      p' := InChunk(j, k + 1);
    } else {
      TurnClose(job, cut, e, j);
      p' := AtHead(j + 1);
    }
  }

  lemma FlattenAll(cs: seq<seq<Stmt>>, j: nat)
    requires j <= |cs|
    ensures j == |cs| ==> Flatten(cs[..j]) == Flatten(cs)
  {
    if j == |cs| {
      assert cs[..j] == cs;
    }
  }

  /** What has been performed is a prefix of the transaction. */
  lemma ActsPrefix(job: Job, cut: Cut, e: Exec, p: Place)
    requires PlaceOK(job, cut, e, p)
    ensures |e.acts| <= |Content(cut)| && e.acts == Content(cut)[..|e.acts|]
  {
    match p
    case InWhole(k) =>
    case AtStart =>
    case AtHead(j) =>
      if j < |cut.cs| {
        FlattenPrefix(cut.cs, j, 0);
      } else {
        assert cut.cs[..j] == cut.cs;
      }
    case InChunk(j, k) => FlattenPrefix(cut.cs, j, k);
  }

  /** A turn performs the next message of the transaction, or none. */
  lemma Progress(job: Job, cut: Cut, e: Exec, p: Place) returns (p': Place)
    requires Carries(job, cut) && PlaceOK(job, cut, e, p) && |e.acts| < |Content(cut)|
    ensures Turn(job, e).Some? && PlaceOK(job, cut, Turn(job, e).value, p') && Fewer(Left(cut, p'), Left(cut, p))
    ensures var acts' := Turn(job, e).value.acts; acts' == e.acts || acts' == e.acts + [Content(cut)[|e.acts|]]
  {
    p' := TurnOK(job, cut, e, p);
    ActsPrefix(job, cut, Turn(job, e).value, p');
    TurnActs(job, e, Content(cut));
  }

  lemma TurnActs(job: Job, e: Exec, all: seq<Stmt>)
    requires Turn(job, e).Some? && |e.acts| < |all|
    requires var acts' := Turn(job, e).value.acts; |acts'| <= |all| && acts' == all[..|acts'|]
    ensures var acts' := Turn(job, e).value.acts; acts' == e.acts || acts' == e.acts + [all[|e.acts|]]
  {
    var acts' := Turn(job, e).value.acts;
    assert |acts'| == |e.acts| + 1 ==> acts'[|e.acts|] == all[|e.acts|];
  }

  /** MtmExecutor's action loop: it performs the messages of the transaction in order, to the commit. */
  method Executor(job: Job, ghost stmts: seq<Stmt>) returns (acts: seq<Stmt>)
    requires Delivers(job, stmts) && Transaction(stmts)
    ensures acts == stmts
  {
    ghost var cut :| Carries(job, cut) && Content(cut) == stmts;
    var e := Exec(job.work, 0, 0, 0, []);
    ghost var p := if cut.Whole? then InWhole(0) else AtStart;
    assert cut.Whole? ==> cut.stmts[..0] == [];
    var inside := true;
    while inside
      invariant PlaceOK(job, cut, e, p)
      invariant |e.acts| <= |Content(cut)| && (inside <==> |e.acts| < |Content(cut)|)
      decreases Left(cut, p).0, Left(cut, p).1
    {
      p := Progress(job, cut, e, p);
      var before := |e.acts|;
      e := Turn(job, e).value;
      if |e.acts| > before {
        inside := !e.acts[before].commit;
      }
    }
    ActsPrefix(job, cut, e, p);
    acts := e.acts;
  }

  /** For every transaction and every threshold, the executor performs what the receiver got. */
  method SpillPreserves(stmts: seq<Stmt>, sender: nat, threshold: int) returns (acts: seq<Stmt>)
    requires Transaction(stmts)
    ensures acts == stmts
  {
    var job := ReceiveTransaction(stmts, sender, threshold);
    acts := Executor(job, stmts);
  }
}
