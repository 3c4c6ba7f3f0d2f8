/**
  Entities of the search-and-resubmit run: execution records as the search
  endpoint returns them, the pages that carry them, the replies of the two
  remote endpoints, and the faults that end a run.
 */
module Flow {

  /** A value that may be null or absent in a decoded JSON body. */
  datatype Option<+T> = None | Some(value: T)

  /** A label/value pair from a record's `data_tags`. */
  datatype DataTag = DataTag(tagLabel: string, tagValue: string)

  /** One element of `flowExecutionSearch.data`. The fields a run inspects
      are `invocationUuid` (the key and the resubmit argument), `startDate`
      (the sort key) and `cursor` (the continuation token); `partnerUuid`
      and `partnerName` are the two fields the normalizer overwrites. */
  datatype ExecutionRecord = ExecutionRecord(
    flowUuid: string,
    flowName: string,
    invocationUuid: string,
    flowTypeLabel: string,
    startDate: string,
    statusLabel: string,
    status: string,
    cursor: Option<string>,
    companyUuid: string,
    partnerUuid: Option<string>,
    partnerName: Option<string>,
    summaryMessage: string,
    dataTags: seq<DataTag>)

  /** The `flowExecutionSearch` block of one trading partner; `data` is None
      when the block has no `data` list. */
  datatype FlowExecutionSearch = FlowExecutionSearch(data: Option<seq<ExecutionRecord>>)

  /** One element of `data.company.tradingPartners`. */
  datatype TradingPartner = TradingPartner(
    partnerUuid: Option<string>,
    partnerName: Option<string>,
    flowExecutionSearch: Option<FlowExecutionSearch>)

  /** A decoded search response. `errors` is the serialised `errors` member
      when the body has a truthy one (an empty array included) and None when
      it is absent or falsy (`null`, `false`, `""`, `0`); `tradingPartners`
      is None when any link of the path `data.company.tradingPartners` is
      missing. */
  datatype Page = Page(errors: Option<string>, tradingPartners: Option<seq<TradingPartner>>)

  /** What one search request yields: either the request or the decoding of
      its body fails, or a page arrives. */
  datatype Response = TransportFailed(reason: string) | Delivered(page: Page)

  /** The search endpoint as seen by one run with fixed criteria and date
      window: the `cursor` variable sent (None when the request has none)
      determines the response. */
  type Server = Option<string> -> Response

  /** The body of a resubmit reply; the run never looks inside it. */
  datatype ResubmitPayload = ResubmitPayload(resubmitted: Option<bool>, message: Option<string>, errors: Option<string>)

  /** What one resubmit request yields. */
  datatype Reply = CallFailed(reason: string) | Answered(payload: ResubmitPayload)

  /** The resubmit endpoint: the reply to resubmitting an invocation id. */
  type Resubmitter = string -> Reply

  /** Everything that ends a run early. `OutOfFuel` belongs to the model
      only: it marks a run cut off by the bound on the number of requests. */
  datatype Fault =
    | RequestFailed(reason: string)
    | SearchErrors(serialized: string)
    | BadPage(page: Page)
    | BadPartner(partner: TradingPartner)
    | MissingData(partner: TradingPartner)
    | DuplicateExecutions(total: nat, unique: nat)
    | OutOfFuel

  datatype Result<+T> = Success(value: T) | Failure(error: Fault)

  datatype Outcome = Pass | Fail(fault: Fault)

  /** JavaScript truthiness of an optional string: present and non-empty. */
  predicate Truthy(s: Option<string>) {
    s.Some? && s.value != ""
  }

  /** The invocation ids of a list of records, in order. */
  function Ids(recs: seq<ExecutionRecord>): (ids: seq<string>)
    ensures |ids| == |recs|
    ensures forall i :: 0 <= i < |recs| ==> ids[i] == recs[i].invocationUuid
  {
    seq(|recs|, i requires 0 <= i < |recs| => recs[i].invocationUuid)
  }
}
