/**
  The integrity check of `doWork`: the number of records is compared with
  the length of lodash `uniq` over their invocation ids, and a difference
  ends the run before anything is written or resubmitted.
 */
module Integrity {
  import opened Flow

  /** No id occurs twice. */
  predicate Distinct(s: seq<string>) {
    forall i, j :: 0 <= i < j < |s| ==> s[i] != s[j]
  }

  /** `_.uniq(s)`: the first occurrence of every id, in order. It holds the
      same ids as `s`, none twice, and is as long as `s` exactly when `s`
      has no repeated id. */
  function Uniq(s: seq<string>): (u: seq<string>)
    ensures forall x :: x in u <==> x in s
    ensures Distinct(u)
    ensures |u| <= |s|
    ensures |u| == |s| <==> Distinct(s)
    decreases |s|
  {
    if |s| == 0 then []
    else
      var init, last := s[..|s| - 1], s[|s| - 1];
      assert s == init + [last];
      var u := Uniq(init);
      if last in u then
        assert !Distinct(s) by {
          var i :| 0 <= i < |init| && init[i] == last;
          assert s[i] == s[|s| - 1];
        }
        u
      else
        assert Distinct(s) <==> Distinct(init) by {
          if Distinct(init) {
            forall i, j | 0 <= i < j < |s|
              ensures s[i] != s[j]
            {
              if j == |s| - 1 {
                assert s[i] == init[i];
              }
            }
          }
          if Distinct(s) {
            forall i, j | 0 <= i < j < |init|
              ensures init[i] != init[j]
            {
              assert init[i] == s[i] && init[j] == s[j];
            }
          }
        }
        u + [last]
  }

  /** A list without repeated ids is as long as its set of ids. */
  lemma {:induction false} DistinctCardinality(s: seq<string>)
    requires Distinct(s)
    ensures |set x | x in s| == |s|
    decreases |s|
  {
    if |s| > 0 {
      var init := s[..|s| - 1];
      assert Distinct(init) by {
        forall i, j | 0 <= i < j < |init|
          ensures init[i] != init[j]
        {
          assert init[i] == s[i] && init[j] == s[j];
        }
      }
      DistinctCardinality(init);
      assert (set x | x in s) == (set x | x in init) + {s[|s| - 1]} by {
        assert s == init + [s[|s| - 1]];
      }
      assert s[|s| - 1] !in init;
    }
  }

  /** `_.uniq(...).length` is the number of distinct ids. */
  lemma {:induction false} UniqCountsDistinctIds(s: seq<string>)
    ensures |Uniq(s)| == |set x | x in s|
  {
    DistinctCardinality(Uniq(s));
    assert (set x | x in Uniq(s)) == (set x | x in s);
  }

  /** Two records share an invocation id. */
  predicate HasDuplicateIds(executions: seq<ExecutionRecord>) {
    exists i, j :: 0 <= i < j < |executions| && executions[i].invocationUuid == executions[j].invocationUuid
  }

  /** The check of `doWork`: it fails exactly on lists in which two records
      share an invocation id, with the record count and the distinct-id
      count, the latter strictly smaller. */
  function CheckUnique(executions: seq<ExecutionRecord>): (r: Outcome)
    ensures r.Fail? <==> HasDuplicateIds(executions)
    ensures r.Fail? ==> r.fault == DuplicateExecutions(|executions|, |Uniq(Ids(executions))|)
    ensures r.Fail? ==> |Uniq(Ids(executions))| < |executions|
  {
    var ids := Ids(executions);
    var unique := |Uniq(ids)|;
    assert Distinct(ids) <==> !HasDuplicateIds(executions) by {
      if !Distinct(ids) {
        var i, j :| 0 <= i < j < |ids| && ids[i] == ids[j];
        assert executions[i].invocationUuid == executions[j].invocationUuid;
      }
    }
    if |executions| != unique then Fail(DuplicateExecutions(|executions|, unique)) else Pass
  }
}
