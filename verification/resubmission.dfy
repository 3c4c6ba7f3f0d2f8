/**
  The checkpointing resubmitter, `resubmitAll`: one resubmit request per
  record, strictly in order; after each request is answered its id is
  appended to the in-memory ledger and the whole ledger overwrites
  `resubmitted.json`. The reply body is never looked at, so an answer that
  reports a failed resubmission is recorded like any other. A request that
  fails ends the run with the ledger as it was.
 */
module Resubmission {
  import opened Flow

  /** `resubmitAll`. `file` is what `resubmitted.json` held before the run
      (None: no file); the results are the ledger, the file afterwards and
      the ids of the requests made. After `k` answered requests the ledger is
      the first `k` ids; a failing request `k + 1` leaves it at `k` entries;
      the file holds the ledger once anything was answered and is untouched
      otherwise. */
  method ResubmitAll(resubmit: Resubmitter, executions: seq<ExecutionRecord>, file: Option<seq<string>>)
    returns (outcome: Outcome, executed: seq<string>, fileAfter: Option<seq<string>>, calls: seq<string>)
    ensures |executed| <= |executions|
    ensures |calls| == |executed| + (if outcome.Fail? then 1 else 0)
    ensures |calls| <= |executions| && calls == Ids(executions)[..|calls|]
    ensures executed == calls[..|executed|]
    ensures executed == Ids(executions)[..|executed|]
    ensures forall i :: 0 <= i < |executed| ==> resubmit(executed[i]).Answered?
    ensures fileAfter == if |executed| == 0 then file else Some(executed)
    ensures outcome.Pass? <==> forall j :: 0 <= j < |executions| ==> resubmit(executions[j].invocationUuid).Answered?
    ensures outcome.Pass? ==> executed == Ids(executions) && calls == executed
    ensures outcome.Fail? ==>
      && |executed| < |executions|
      && calls == Ids(executions)[..|executed| + 1]
      && resubmit(executions[|executed|].invocationUuid).CallFailed?
      && outcome.fault == RequestFailed(resubmit(executions[|executed|].invocationUuid).reason)
  {
    executed, fileAfter, calls := [], file, [];
    var i := 0;
    while i < |executions|
      invariant 0 <= i <= |executions|
      invariant executed == Ids(executions)[..i]
      invariant calls == executed
      invariant forall j :: 0 <= j < i ==> resubmit(executed[j]).Answered?
      invariant fileAfter == if i == 0 then file else Some(executed)
    {
      var id := executions[i].invocationUuid;
      calls := calls + [id];
      var reply := resubmit(id);
      if reply.CallFailed? {
        outcome := Fail(RequestFailed(reply.reason));
        return;
      }
      executed := executed + [id];
      fileAfter := Some(executed);
      i := i + 1;
    }
    outcome := Pass;
  }
}
