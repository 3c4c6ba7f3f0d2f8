/**
  The run driver, `doWork`: search, order and filter, check the ids, write
  the `executions.json` snapshot, resubmit, and return the number of
  records. Any fault of an earlier stage ends the run before the snapshot
  is written and before the first resubmit request.
 */
module Driver {
  import opened Flow
  import opened Pagination
  import opened Ordering
  import opened Integrity
  import opened Resubmission

  /** `getAll`: the whole search, then ordering and filtering; a failed
      search fails `getAll` with the same fault. */
  method GetAllExecutions(server: Server, fuel: nat, keep: ExecutionRecord -> bool)
    returns (r: Result<seq<ExecutionRecord>>)
    ensures r.Success? <==> Crawl(server, None, fuel).Success?
    ensures r.Failure? ==> r.error == Crawl(server, None, fuel).error
    ensures r.Success? ==> r.value == GetAll(Crawl(server, None, fuel).value, keep)
  {
    var searched, _, _ := GetExecutions(server, fuel);
    if searched.Failure? {
      return Failure(searched.error);
    }
    return Success(GetAll(searched.value, keep));
  }

  /** What the part of `doWork` after `getAll` does with the working set
      `ws`, the resubmit endpoint `resubmit` and the prior ledger file
      `file`. Duplicate ids fail the run with the record count and the
      distinct-id count, before the snapshot and before any request.
      Otherwise the snapshot is the whole working set and the requests are
      a prefix of its ids, in order. The run succeeds, returning the working
      set's size, exactly when every request is answered; otherwise the last
      request made is the first that failed, the run fails with its fault,
      and the ledger holds the ids answered before it. */
  ghost predicate Processed(ws: seq<ExecutionRecord>, resubmit: Resubmitter, file: Option<seq<string>>,
                            result: Result<nat>, snapshot: Option<seq<ExecutionRecord>>,
                            fileAfter: Option<seq<string>>, calls: seq<string>) {
    && (HasDuplicateIds(ws) ==>
          && result == Failure(DuplicateExecutions(|ws|, |Uniq(Ids(ws))|))
          && |Uniq(Ids(ws))| < |ws|
          && snapshot == None && fileAfter == file && calls == [])
    && (!HasDuplicateIds(ws) ==>
          && snapshot == Some(ws)
          && |calls| <= |ws| && calls == Ids(ws)[..|calls|]
          && (result.Success? <==> forall j :: 0 <= j < |ws| ==> resubmit(ws[j].invocationUuid).Answered?)
          && (forall i :: 0 <= i < |calls| - 1 ==> resubmit(calls[i]).Answered?)
          && (result.Success? ==>
                result.value == |ws| && calls == Ids(ws)
                && fileAfter == (if |ws| == 0 then file else Some(Ids(ws))))
          && (result.Failure? ==>
                && |calls| > 0
                && resubmit(calls[|calls| - 1]).CallFailed?
                && result.error == RequestFailed(resubmit(calls[|calls| - 1]).reason)
                && fileAfter == (if |calls| == 1 then file else Some(calls[..|calls| - 1]))))
  }

  /** The part of `doWork` after `getAll`: the id check, the snapshot, the
      resubmissions and the count, as `Processed` describes them. */
  method ProcessWorkingSet(executions: seq<ExecutionRecord>, resubmit: Resubmitter, file: Option<seq<string>>)
    returns (result: Result<nat>, snapshot: Option<seq<ExecutionRecord>>, fileAfter: Option<seq<string>>, calls: seq<string>)
    ensures Processed(executions, resubmit, file, result, snapshot, fileAfter, calls)
  {
    snapshot, fileAfter, calls := None, file, [];
    var check := CheckUnique(executions);
    if check.Fail? {
      result := Failure(check.fault);
      return;
    }
    snapshot := Some(executions);
    var outcome, executed;
    outcome, executed, fileAfter, calls := ResubmitAll(resubmit, executions, file);
    if outcome.Fail? {
      result := Failure(outcome.fault);
      return;
    }
    result := Success(|executions|);
  }

  /** `doWork` with the search endpoint `server` (at most `fuel` search
      requests), the predicate `keep` in place of `filterFunction`, the
      resubmit endpoint `resubmit` and the prior `resubmitted.json`
      contents `file`. It returns the run's result, the snapshot written to
      `executions.json` (None: not written), the ledger file afterwards and
      the ids of the resubmit requests made. */
  method DoWork(server: Server, fuel: nat, keep: ExecutionRecord -> bool, resubmit: Resubmitter, file: Option<seq<string>>)
    returns (result: Result<nat>, snapshot: Option<seq<ExecutionRecord>>, fileAfter: Option<seq<string>>, calls: seq<string>)
    ensures Crawl(server, None, fuel).Failure? ==>
      && result == Failure(Crawl(server, None, fuel).error)
      && snapshot == None && fileAfter == file && calls == []
    ensures Crawl(server, None, fuel).Success? ==>
      Processed(GetAll(Crawl(server, None, fuel).value, keep), resubmit, file, result, snapshot, fileAfter, calls)
  {
    snapshot, fileAfter, calls := None, file, [];
    var searched := GetAllExecutions(server, fuel, keep);
    if searched.Failure? {
      result := Failure(searched.error);
      return;
    }
    ghost var workingSet := GetAll(Crawl(server, None, fuel).value, keep);
    assert searched.value == workingSet;
    result, snapshot, fileAfter, calls := ProcessWorkingSet(searched.value, resubmit, file);
  }
}
