/**
  The execution normalizer, `makeExecutions`: one page's nested
  `tradingPartners[].flowExecutionSearch.data[]` becomes one flat list in
  partner order and then record order, each record tagged with its parent
  partner's `partner_uuid` and `partner_name`.
 */
module Normalize {
  import opened Flow
  import opened Seqs

  /** A record with both partner fields cleared: the part of a record that
      tagging must leave alone. */
  function WithoutPartner(e: ExecutionRecord): ExecutionRecord {
    e.(partnerUuid := None, partnerName := None)
  }

  /** The record tagged with its partner: both partner fields replaced by
      the partner's, whatever the record held before. */
  function Augment(fe: ExecutionRecord, tp: TradingPartner): (r: ExecutionRecord)
    ensures r.partnerUuid == tp.partnerUuid && r.partnerName == tp.partnerName
    ensures WithoutPartner(r) == WithoutPartner(fe)
  {
    fe.(partnerUuid := tp.partnerUuid, partnerName := tp.partnerName)
  }

  /** A partner whose records can be read: it has a `flowExecutionSearch`
      block and that block has a `data` list. */
  predicate WellFormed(tp: TradingPartner) {
    tp.flowExecutionSearch.Some? && tp.flowExecutionSearch.value.data.Some?
  }

  predicate AllWellFormed(tps: seq<TradingPartner>) {
    forall i :: 0 <= i < |tps| ==> WellFormed(tps[i])
  }

  /** The partner's own `flowExecutionSearch.data`. */
  function Data(tp: TradingPartner): seq<ExecutionRecord>
    requires WellFormed(tp)
  {
    tp.flowExecutionSearch.value.data.value
  }

  /** The fault a partner that cannot be read ends the run with: a missing
      search block is logged as a bad partner before the dereference fails;
      a missing `data` list fails without a log line. */
  function PartnerFault(tp: TradingPartner): Fault
    requires !WellFormed(tp)
  {
    if tp.flowExecutionSearch.None? then BadPartner(tp) else MissingData(tp)
  }

  /** One step of the reduce: the partner's records, tagged. */
  function PartnerExecutions(tp: TradingPartner): (r: Result<seq<ExecutionRecord>>)
    ensures r.Success? <==> WellFormed(tp)
    ensures r.Failure? ==> r.error == PartnerFault(tp)
    ensures r.Success? ==> |r.value| == |Data(tp)|
    ensures r.Success? ==> forall j :: 0 <= j < |Data(tp)| ==> r.value[j] == Augment(Data(tp)[j], tp)
  {
    match tp.flowExecutionSearch
    case None => Failure(BadPartner(tp))
    case Some(search) =>
      match search.data
      case None => Failure(MissingData(tp))
      case Some(data) => Success(seq(|data|, j requires 0 <= j < |data| => Augment(data[j], tp)))
  }

  /** Reference definition: every partner's tagged records, one list per partner. */
  function PartnerLists(tps: seq<TradingPartner>): (xss: seq<seq<ExecutionRecord>>)
    requires AllWellFormed(tps)
    ensures |xss| == |tps|
    decreases |tps|
  {
    if |tps| == 0 then []
    else [PartnerExecutions(tps[0]).value] + PartnerLists(tps[1..])
  }

  /** The number of records a list of readable partners carries. */
  function RecordCount(tps: seq<TradingPartner>): nat
    requires AllWellFormed(tps)
    decreases |tps|
  {
    if |tps| == 0 then 0 else |Data(tps[0])| + RecordCount(tps[1..])
  }

  /** The reduce over `tradingPartners`, starting from the accumulated list
      `acc`: each partner's tagged records are appended in turn, and the
      first partner that cannot be read ends it. */
  function Reduce(acc: seq<ExecutionRecord>, tps: seq<TradingPartner>): Result<seq<ExecutionRecord>>
    decreases |tps|
  {
    if |tps| == 0 then Success(acc)
    else match PartnerExecutions(tps[0])
      case Failure(f) => Failure(f)
      case Success(augmented) => Reduce(acc + augmented, tps[1..])
  }

  /** `makeExecutions(page)`: a page without `data.company.tradingPartners`
      is logged and then fails on the dereference; otherwise the partners are
      reduced in order, starting from the empty list. */
  function MakeExecutions(page: Page): Result<seq<ExecutionRecord>> {
    match page.tradingPartners
    case None => Failure(BadPage(page))
    case Some(tps) => Reduce([], tps)
  }

  /** The reduce succeeds exactly when every partner can be read, and then
      appends the reference concatenation to `acc`; otherwise it fails with
      the fault of the first partner that cannot be read. */
  lemma {:induction false} ReduceMatchesReference(acc: seq<ExecutionRecord>, tps: seq<TradingPartner>)
    ensures Reduce(acc, tps).Success? <==> AllWellFormed(tps)
    ensures Reduce(acc, tps).Success? ==> Reduce(acc, tps).value == acc + Flatten(PartnerLists(tps))
    ensures Reduce(acc, tps).Failure? ==>
      exists i :: (0 <= i < |tps| && !WellFormed(tps[i]) && Reduce(acc, tps).error == PartnerFault(tps[i])
        && AllWellFormed(tps[..i]))
    decreases |tps|
  {
    if |tps| > 0 {
      match PartnerExecutions(tps[0])
      case Failure(f) =>
        assert tps[..0] == [];
      case Success(augmented) =>
        ReduceMatchesReference(acc + augmented, tps[1..]);
        var r := Reduce(acc + augmented, tps[1..]);
        assert forall i :: 0 <= i < |tps| - 1 ==> tps[1..][i] == tps[i + 1];
        if r.Failure? {
          var i :| 0 <= i < |tps| - 1 && !WellFormed(tps[1..][i]) && r.error == PartnerFault(tps[1..][i])
            && AllWellFormed(tps[1..][..i]);
          assert tps[..i + 1] == [tps[0]] + tps[1..][..i];
        }
    }
  }

  /** What `makeExecutions` returns: a page without partners fails as a bad
      page; a page whose partners can all be read yields the concatenation of
      their tagged records in partner order; otherwise the first partner that
      cannot be read decides the fault. */
  lemma {:induction false} MakeExecutionsSpec(page: Page)
    ensures page.tradingPartners.None? ==> MakeExecutions(page) == Failure(BadPage(page))
    ensures page.tradingPartners.Some? ==>
      (MakeExecutions(page).Success? <==> AllWellFormed(page.tradingPartners.value))
    ensures MakeExecutions(page).Success? ==>
      MakeExecutions(page).value == Flatten(PartnerLists(page.tradingPartners.value))
    ensures MakeExecutions(page).Failure? && page.tradingPartners.Some? ==>
      var tps := page.tradingPartners.value;
      exists i :: (0 <= i < |tps| && !WellFormed(tps[i]) && MakeExecutions(page).error == PartnerFault(tps[i])
        && AllWellFormed(tps[..i]))
  {
    if page.tradingPartners.Some? {
      ReduceMatchesReference([], page.tradingPartners.value);
      if AllWellFormed(page.tradingPartners.value) {
        assert [] + Flatten(PartnerLists(page.tradingPartners.value)) == Flatten(PartnerLists(page.tradingPartners.value));
      }
    }
  }

  /** The flat list is exactly as long as all partners' lists together. */
  lemma {:induction false} FlattenPartnerListsLength(tps: seq<TradingPartner>)
    requires AllWellFormed(tps)
    ensures |Flatten(PartnerLists(tps))| == RecordCount(tps)
    decreases |tps|
  {
    if |tps| > 0 {
      assert AllWellFormed(tps[1..]);
      FlattenPartnerListsLength(tps[1..]);
    }
  }

  /** Record `j` of partner `i` sits right after the records of partners
      `0 .. i-1`, tagged with partner `i`'s identity. */
  lemma {:induction false} FlattenPartnerListsPlacement(tps: seq<TradingPartner>, i: nat, j: nat)
    requires AllWellFormed(tps)
    requires i < |tps| && j < |Data(tps[i])|
    ensures AllWellFormed(tps[..i])
    ensures RecordCount(tps[..i]) + j < |Flatten(PartnerLists(tps))|
    ensures Flatten(PartnerLists(tps))[RecordCount(tps[..i]) + j] == Augment(Data(tps[i])[j], tps[i])
    decreases i
  {
    var xss := PartnerLists(tps);
    assert AllWellFormed(tps[1..]);
    assert xss[0] == PartnerExecutions(tps[0]).value;
    assert xss[1..] == PartnerLists(tps[1..]);
    assert Flatten(xss) == xss[0] + Flatten(xss[1..]);
    if i == 0 {
      assert tps[..0] == [];
    } else {
      FlattenPartnerListsPlacement(tps[1..], i - 1, j);
      assert |xss[0]| == |Data(tps[0])|;
      assert tps[..i][0] == tps[0];
      assert tps[..i][1..] == tps[1..][..i - 1];
      assert RecordCount(tps[..i]) == |Data(tps[0])| + RecordCount(tps[1..][..i - 1]);
    }
  }

  /** Every record of the flat list comes from some record `j` of some
      partner `i`, carries partner `i`'s `partner_uuid` and `partner_name`,
      and agrees with that record in every other field. */
  lemma {:induction false} FlattenPartnerListsOrigin(tps: seq<TradingPartner>, p: nat)
    requires AllWellFormed(tps)
    requires p < |Flatten(PartnerLists(tps))|
    ensures exists i, j :: (0 <= i < |tps| && 0 <= j < |Data(tps[i])|
      && Flatten(PartnerLists(tps))[p].partnerUuid == tps[i].partnerUuid
      && Flatten(PartnerLists(tps))[p].partnerName == tps[i].partnerName
      && WithoutPartner(Flatten(PartnerLists(tps))[p]) == WithoutPartner(Data(tps[i])[j]))
    decreases |tps|
  {
    var xss := PartnerLists(tps);
    assert AllWellFormed(tps[1..]);
    assert xss[1..] == PartnerLists(tps[1..]);
    var head := PartnerExecutions(tps[0]).value;
    assert Flatten(xss) == head + Flatten(xss[1..]);
    if p < |head| {
      var fe := Data(tps[0])[p];
      assert Flatten(xss)[p] == Augment(fe, tps[0]);
    } else {
      FlattenPartnerListsOrigin(tps[1..], p - |head|);
      var i, j :| 0 <= i < |tps[1..]| && 0 <= j < |Data(tps[1..][i])|
        && Flatten(PartnerLists(tps[1..]))[p - |head|].partnerUuid == tps[1..][i].partnerUuid
        && Flatten(PartnerLists(tps[1..]))[p - |head|].partnerName == tps[1..][i].partnerName
        && WithoutPartner(Flatten(PartnerLists(tps[1..]))[p - |head|]) == WithoutPartner(Data(tps[1..][i])[j]);
      assert Flatten(xss)[p] == Flatten(PartnerLists(tps[1..]))[p - |head|];
      assert tps[1..][i] == tps[i + 1];
    }
  }

  /** On a page whose partners `tps` are all readable, `makeExecutions`
      succeeds with as many records as the partners' lists hold together. */
  lemma {:induction false} MakeExecutionsLength(page: Page, tps: seq<TradingPartner>)
    requires page.tradingPartners == Some(tps) && AllWellFormed(tps)
    ensures MakeExecutions(page).Success?
    ensures |MakeExecutions(page).value| == RecordCount(tps)
  {
    MakeExecutionsSpec(page);
    FlattenPartnerListsLength(tps);
  }

  /** Record `j` of partner `i` of the page lands in `makeExecutions`'s result
      right after the records of the partners before `i`, tagged with
      partner `i`: partner order first, then record order. */
  lemma {:induction false} MakeExecutionsPlacement(page: Page, tps: seq<TradingPartner>, i: nat, j: nat)
    requires page.tradingPartners == Some(tps) && AllWellFormed(tps)
    requires i < |tps| && j < |Data(tps[i])|
    ensures MakeExecutions(page).Success? && AllWellFormed(tps[..i])
    ensures RecordCount(tps[..i]) + j < |MakeExecutions(page).value|
    ensures MakeExecutions(page).value[RecordCount(tps[..i]) + j] == Augment(Data(tps[i])[j], tps[i])
  {
    MakeExecutionsSpec(page);
    FlattenPartnerListsPlacement(tps, i, j);
  }

  /** Every record `makeExecutions` returns carries the `partner_uuid` and
      `partner_name` of some partner of the page and is otherwise a record of
      that partner's `data`. */
  lemma {:induction false} MakeExecutionsOrigin(page: Page, tps: seq<TradingPartner>, p: nat)
    requires page.tradingPartners == Some(tps) && AllWellFormed(tps)
    requires MakeExecutions(page).Success? && p < |MakeExecutions(page).value|
    ensures exists i, j :: (0 <= i < |tps| && 0 <= j < |Data(tps[i])|
      && MakeExecutions(page).value[p].partnerUuid == tps[i].partnerUuid
      && MakeExecutions(page).value[p].partnerName == tps[i].partnerName
      && WithoutPartner(MakeExecutions(page).value[p]) == WithoutPartner(Data(tps[i])[j]))
  {
    MakeExecutionsSpec(page);
    FlattenPartnerListsOrigin(tps, p);
  }
}
