/** Jobs of the receiver in the worker queue: one that was not spilled always fits. */
module SpilledJobs {
  import S = Spill
  import Q = WorkerQueue

  /** The receiver spills at k kilobytes, and the queue has twice that size (BgwPoolStart). */
  method ReceivedJobFits(stmts: seq<S.Stmt>, sender: nat, k: nat, pos: nat) returns (job: S.Job)
    requires k >= 1
    ensures S.Delivers(job, stmts)
    ensures job.file == [] ==> forall m: Q.Msg :: |m.work| == |job.work| ==> Q.Len(m) <= 2048 * k
  {
    job := S.ReceiveTransaction(stmts, sender, 1024 * k);
    if job.file == [] {
      forall m: Q.Msg | |m.work| == |job.work|
        ensures Q.Len(m) <= 2048 * k
      {
        Q.BelowThresholdFits(k, m);
      }
    }
  }

  /** And an empty queue of that size takes it. */
  lemma EmptyQueueTakes(k: nat, mem: seq<Q.Byte>, m: Q.Msg)
    requires k >= 1 && |mem| == 2048 * k && |m.work| < 1024 * k
    ensures Q.Len(m) <= |mem| && Q.Push(Q.Queue(mem, 0, 0), m).Some?
  {
    Q.BelowThresholdFits(k, m);
  }
}
