/**
  The ordering and filtering stage, `getAll`: a stable ascending sort of the
  searched records by `start_date` (lodash `sortBy`), then
  `filter(filterFunction)`.

  `start_date` is compared as a string, with JavaScript's relational
  operators: lexicographically by character. A stable sort is determined by
  its input: the sequence that is ordered and keeps, for every key, the
  records with that key in input order is unique (`StableSortUnique`), so
  the insertion sort below has the same result as lodash's sort, which
  breaks ties by input index.
 */
module Ordering {
  import opened Flow
  import opened Seqs

  /** `a <= b` on JavaScript strings. */
  predicate StrLe(a: string, b: string)
    decreases |a|
  {
    |a| == 0 || (|b| > 0 && (a[0] < b[0] || (a[0] == b[0] && StrLe(a[1..], b[1..]))))
  }

  lemma {:induction false} StrLeReflexive(a: string)
    ensures StrLe(a, a)
    decreases |a|
  {
    if |a| > 0 {
      StrLeReflexive(a[1..]);
    }
  }

  lemma {:induction false} StrLeTotal(a: string, b: string)
    ensures StrLe(a, b) || StrLe(b, a)
    decreases |a|
  {
    if |a| > 0 && |b| > 0 && a[0] == b[0] {
      StrLeTotal(a[1..], b[1..]);
    }
  }

  lemma {:induction false} StrLeAntisymmetric(a: string, b: string)
    requires StrLe(a, b) && StrLe(b, a)
    ensures a == b
    decreases |a|
  {
    if |a| > 0 {
      StrLeAntisymmetric(a[1..], b[1..]);
      assert a == [a[0]] + a[1..] && b == [b[0]] + b[1..];
    }
  }

  lemma {:induction false} StrLeTransitive(a: string, b: string, c: string)
    requires StrLe(a, b) && StrLe(b, c)
    ensures StrLe(a, c)
    decreases |a|
  {
    if |a| > 0 && a[0] == b[0] && b[0] == c[0] {
      StrLeTransitive(a[1..], b[1..], c[1..]);
    }
  }

  /** Ascending by `start_date`. */
  ghost predicate Sorted(s: seq<ExecutionRecord>) {
    forall i, j :: 0 <= i < j < |s| ==> StrLe(s[i].startDate, s[j].startDate)
  }

  /** Accepts the records whose `start_date` is `k`. */
  function SameStart(k: string): ExecutionRecord -> bool {
    (e: ExecutionRecord) => e.startDate == k
  }

  /** Ordered by `start_date`, and for every `start_date` the records with
      that date appear in the same order as in `s`. */
  ghost predicate StablySorted(s: seq<ExecutionRecord>, r: seq<ExecutionRecord>) {
    && Sorted(r)
    && forall k :: Filter(SameStart(k), r) == Filter(SameStart(k), s)
  }

  /** Puts `x` after every record of `t` whose `start_date` is not later. */
  function Insert(x: ExecutionRecord, t: seq<ExecutionRecord>): seq<ExecutionRecord>
    decreases |t|
  {
    if |t| == 0 then [x]
    else if StrLe(t[0].startDate, x.startDate) then [t[0]] + Insert(x, t[1..])
    else [x] + t
  }

  /** `_.sortBy(executions, 'start_date')`. */
  function SortByStartDate(s: seq<ExecutionRecord>): seq<ExecutionRecord>
    decreases |s|
  {
    if |s| == 0 then [] else Insert(s[|s| - 1], SortByStartDate(s[..|s| - 1]))
  }

  /** A record not later than every record of an ordered list may lead it. */
  lemma {:induction false} SortedCons(h: ExecutionRecord, s: seq<ExecutionRecord>)
    requires Sorted(s)
    requires forall j :: 0 <= j < |s| ==> StrLe(h.startDate, s[j].startDate)
    ensures Sorted([h] + s)
  {
    var r := [h] + s;
    forall i, j | 0 <= i < j < |r|
      ensures StrLe(r[i].startDate, r[j].startDate)
    {
      assert r[j] == s[j - 1];
      if i > 0 {
        assert r[i] == s[i - 1];
      }
    }
  }

  lemma {:induction false} InsertMultiset(x: ExecutionRecord, t: seq<ExecutionRecord>)
    ensures multiset(Insert(x, t)) == multiset(t) + multiset{x}
    decreases |t|
  {
    if |t| > 0 {
      assert t == [t[0]] + t[1..];
      if StrLe(t[0].startDate, x.startDate) {
        InsertMultiset(x, t[1..]);
      }
    }
  }

  lemma {:induction false} InsertSorted(x: ExecutionRecord, t: seq<ExecutionRecord>)
    requires Sorted(t)
    ensures Sorted(Insert(x, t))
    decreases |t|
  {
    if |t| > 0 {
      if StrLe(t[0].startDate, x.startDate) {
        SortedTail(t);
        InsertSorted(x, t[1..]);
        InsertMultiset(x, t[1..]);
        var rest := Insert(x, t[1..]);
        forall j | 0 <= j < |rest|
          ensures StrLe(t[0].startDate, rest[j].startDate)
        {
          assert rest[j] in multiset(rest);
          if rest[j] != x {
            assert rest[j] in multiset(t[1..]);
            var m :| 0 <= m < |t[1..]| && t[1..][m] == rest[j];
            assert t[1..][m] == t[m + 1];
          }
        }
        SortedCons(t[0], rest);
      } else {
        StrLeTotal(t[0].startDate, x.startDate);
        forall j | 0 <= j < |t|
          ensures StrLe(x.startDate, t[j].startDate)
        {
          if j > 0 {
            StrLeTransitive(x.startDate, t[0].startDate, t[j].startDate);
          }
        }
        SortedCons(x, t);
      }
    }
  }

  /** Inserting `x` adds it to the end of the records with its own
      `start_date` and leaves the other dates' records alone. */
  lemma {:induction false} InsertStable(x: ExecutionRecord, t: seq<ExecutionRecord>, k: string)
    requires Sorted(t)
    ensures Filter(SameStart(k), Insert(x, t)) == Filter(SameStart(k), t) + Filter(SameStart(k), [x])
    decreases |t|
  {
    var p := SameStart(k);
    if |t| == 0 {
    } else if StrLe(t[0].startDate, x.startDate) {
      SortedTail(t);
      InsertStable(x, t[1..], k);
      assert Insert(x, t) == [t[0]] + Insert(x, t[1..]);
      FilterAppend(p, [t[0]], Insert(x, t[1..]));
      assert t == [t[0]] + t[1..];
      FilterAppend(p, [t[0]], t[1..]);
    } else {
      assert Insert(x, t) == [x] + t;
      FilterAppend(p, [x], t);
      if x.startDate == k {
        NoneDatedBefore(x, t);
        FilterRejectAll(p, t);
      } else {
        assert Filter(p, [x]) == [] by {
          assert [x][1..] == [];
        }
      }
    }
  }

  /** A sorted list whose first date is later than `x`'s holds no record
      dated like `x`. */
  lemma {:induction false} NoneDatedBefore(x: ExecutionRecord, t: seq<ExecutionRecord>)
    requires Sorted(t) && |t| > 0 && !StrLe(t[0].startDate, x.startDate)
    ensures forall j :: 0 <= j < |t| ==> !SameStart(x.startDate)(t[j])
  {
    forall j | 0 <= j < |t|
      ensures t[j].startDate != x.startDate
    {
      StrLeReflexive(x.startDate);
    }
  }

  lemma {:induction false} FilterRejectAll(p: ExecutionRecord -> bool, s: seq<ExecutionRecord>)
    requires forall j :: 0 <= j < |s| ==> !p(s[j])
    ensures Filter(p, s) == []
    decreases |s|
  {
    if |s| > 0 {
      assert forall j :: 0 <= j < |s| - 1 ==> s[1..][j] == s[j + 1];
      FilterRejectAll(p, s[1..]);
    }
  }

  /** The sort is a stable permutation: ordered by `start_date`, same
      multiset of records, ties in input order. */
  lemma {:induction false} SortByStartDateIsStable(s: seq<ExecutionRecord>)
    ensures StablySorted(s, SortByStartDate(s))
    ensures multiset(SortByStartDate(s)) == multiset(s)
    decreases |s|
  {
    if |s| > 0 {
      var init, x := s[..|s| - 1], s[|s| - 1];
      assert s == init + [x];
      SortByStartDateIsStable(init);
      var t := SortByStartDate(init);
      InsertSorted(x, t);
      InsertMultiset(x, t);
      forall k
        ensures Filter(SameStart(k), SortByStartDate(s)) == Filter(SameStart(k), s)
      {
        InsertStable(x, t, k);
        FilterAppend(SameStart(k), init, [x]);
      }
    }
  }

  /** The head of `s` unfolded out of a date filter. */
  lemma {:induction false} FilterStartHead(k: string, s: seq<ExecutionRecord>)
    requires |s| > 0
    ensures Filter(SameStart(k), s) == (if s[0].startDate == k then [s[0]] else []) + Filter(SameStart(k), s[1..])
  {
  }

  /** In an ordered list, a date that occurs is not earlier than the first
      record's date. */
  lemma {:induction false} FirstIsEarliest(s: seq<ExecutionRecord>, k: string)
    requires Sorted(s) && |s| > 0
    requires Filter(SameStart(k), s) != []
    ensures StrLe(s[0].startDate, k)
  {
    var y := Filter(SameStart(k), s)[0];
    assert y in s && y.startDate == k;
    var j :| 0 <= j < |s| && s[j] == y;
    if j == 0 {
      StrLeReflexive(k);
    }
  }

  /** A stable sort has only one possible result: two sequences that are
      both ordered by `start_date` and agree, date by date, on the order of
      the records with that date are equal. */
  lemma {:induction false} StableSortUnique(a: seq<ExecutionRecord>, b: seq<ExecutionRecord>)
    requires Sorted(a) && Sorted(b)
    requires forall k :: Filter(SameStart(k), a) == Filter(SameStart(k), b)
    ensures a == b
    decreases |a| + |b|
  {
    if |a| == 0 && |b| == 0 {
    } else if |a| == 0 {
      FilterStartHead(b[0].startDate, b);
    } else if |b| == 0 {
      FilterStartHead(a[0].startDate, a);
    } else {
      var ka, kb := a[0].startDate, b[0].startDate;
      FilterStartHead(ka, a);
      FilterStartHead(kb, b);
      FirstIsEarliest(b, ka);
      FirstIsEarliest(a, kb);
      StrLeAntisymmetric(ka, kb);
      FilterStartHead(ka, b);
      assert a[0] == b[0] by {
        assert Filter(SameStart(ka), a)[0] == Filter(SameStart(ka), b)[0];
      }
      forall k
        ensures Filter(SameStart(k), a[1..]) == Filter(SameStart(k), b[1..])
      {
        FilterStartHead(k, a);
        FilterStartHead(k, b);
        var pre := if a[0].startDate == k then [a[0]] else [];
        assert Filter(SameStart(k), a[1..]) == Filter(SameStart(k), a)[|pre|..];
        assert Filter(SameStart(k), b[1..]) == Filter(SameStart(k), b)[|pre|..];
      }
      SortedTail(a);
      SortedTail(b);
      StableSortUnique(a[1..], b[1..]);
      assert a == [a[0]] + a[1..] && b == [b[0]] + b[1..];
    }
  }

  /** Dropping the first record keeps a list ordered. */
  lemma {:induction false} SortedTail(s: seq<ExecutionRecord>)
    requires Sorted(s) && |s| > 0
    ensures Sorted(s[1..])
  {
    forall i, j | 0 <= i < j < |s| - 1
      ensures StrLe(s[1..][i].startDate, s[1..][j].startDate)
    {
      assert s[1..][i] == s[i + 1] && s[1..][j] == s[j + 1];
    }
  }

  lemma {:induction false} FilterSorted(p: ExecutionRecord -> bool, s: seq<ExecutionRecord>)
    requires Sorted(s)
    ensures Sorted(Filter(p, s))
    decreases |s|
  {
    if |s| > 0 {
      SortedTail(s);
      FilterSorted(p, s[1..]);
      var rest := Filter(p, s[1..]);
      forall j | 0 <= j < |rest|
        ensures StrLe(s[0].startDate, rest[j].startDate)
      {
        var m :| 0 <= m < |s[1..]| && s[1..][m] == rest[j];
        assert s[1..][m] == s[m + 1];
      }
      if p(s[0]) {
        assert Filter(p, s) == [s[0]] + rest;
        SortedCons(s[0], rest);
      } else {
        assert Filter(p, s) == rest;
      }
    }
  }

  /** The default `filterFunction`: resubmit everything. */
  function AcceptAll(e: ExecutionRecord): bool {
    true
  }

  /** `getAll` after the search: sort by `start_date`, then keep the records
      `keep` accepts. */
  function GetAll(executions: seq<ExecutionRecord>, keep: ExecutionRecord -> bool): seq<ExecutionRecord> {
    Filter(keep, SortByStartDate(executions))
  }

  /** The working set is ordered by `start_date` and holds exactly the
      records `keep` accepts, each as often as in the input. */
  lemma {:induction false} GetAllSpec(executions: seq<ExecutionRecord>, keep: ExecutionRecord -> bool)
    ensures Sorted(GetAll(executions, keep))
    ensures forall i :: 0 <= i < |GetAll(executions, keep)| ==> keep(GetAll(executions, keep)[i])
    ensures multiset(GetAll(executions, keep)) == multiset(Filter(keep, executions))
  {
    SortByStartDateIsStable(executions);
    FilterSorted(keep, SortByStartDate(executions));
    GetAllFilterFirst(executions, keep);
    SortByStartDateIsStable(Filter(keep, executions));
  }

  /** Records of equal `start_date` stay in discovery order: for every date,
      the working set's records with that date are the accepted ones among
      the searched records with that date, in search order. */
  lemma {:induction false} GetAllStable(executions: seq<ExecutionRecord>, keep: ExecutionRecord -> bool)
    ensures forall k :: Filter(SameStart(k), GetAll(executions, keep)) == Filter(keep, Filter(SameStart(k), executions))
  {
    var sorted := SortByStartDate(executions);
    SortByStartDateIsStable(executions);
    forall k
      ensures Filter(SameStart(k), GetAll(executions, keep)) == Filter(keep, Filter(SameStart(k), executions))
    {
      FilterCommute(SameStart(k), keep, sorted);
    }
  }

  /** Sorting then filtering, as `getAll` does, gives the same list as
      filtering then sorting. */
  lemma {:induction false} GetAllFilterFirst(executions: seq<ExecutionRecord>, keep: ExecutionRecord -> bool)
    ensures GetAll(executions, keep) == SortByStartDate(Filter(keep, executions))
  {
    var r := GetAll(executions, keep);
    SortByStartDateIsStable(executions);
    FilterSorted(keep, SortByStartDate(executions));
    GetAllStable(executions, keep);
    var reference := SortByStartDate(Filter(keep, executions));
    SortByStartDateIsStable(Filter(keep, executions));
    forall k
      ensures Filter(SameStart(k), reference) == Filter(SameStart(k), r)
    {
      FilterCommute(SameStart(k), keep, executions);
    }
    StableSortUnique(r, reference);
  }

  /** Under the default predicate the working set is the whole search
      result, reordered: nothing is dropped. */
  lemma {:induction false} GetAllDefaultKeepsEverything(executions: seq<ExecutionRecord>)
    ensures GetAll(executions, AcceptAll) == SortByStartDate(executions)
    ensures multiset(GetAll(executions, AcceptAll)) == multiset(executions)
  {
    GetAllFilterFirst(executions, AcceptAll);
    FilterAcceptAll(AcceptAll, executions);
    SortByStartDateIsStable(executions);
  }
}
