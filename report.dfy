/** Building one result record from the engine's returned state
    (experiments/src/run_grid.py:45-58). */
module Report {
  import opened DateGrid

  datatype Option<T> = None | Some(value: T)

  /** A value in the engine's state. A mapping supports `.get(key, default)`; text and every
      other value (numbers, lists, `None`, objects) do not, and calling `.get` on them raises. */
  datatype Value =
    | Text(s: string)
    | Mapping(entries: map<string, Value>)
    | Opaque(id: int)

  /** A work item: one ticker on one date. A warning names the item that failed. */
  datatype Item = Item(ticker: string, date: Ordinal)

  /** One line of `episodes.ndjson`, without `duration_s`. The field names follow the keys
      of the written JSON object. */
  datatype Row = Row(
    runId: string,
    ticker: string,
    date: Ordinal,
    decision: Value,
    marketReport: Value,
    newsReport: Value,
    socialReport: Value,
    fundReport: Value,
    investHistory: Value,
    traderPlan: Value,
    riskHistory: Value,
    riskDecision: Value)

  /** The empty string that every missing report field defaults to. */
  const Empty: Value := Text("")

  /** `m.get(key, default)` on a mapping. */
  function Get(m: map<string, Value>, key: string, default: Value): Value
  {
    if key in m then m[key] else default
  }

  /** `state.get(key, {}).get("history", "")`: a missing debate state reads as an empty
      mapping, but a present one that is not a mapping makes the second `.get` raise. */
  function History(state: map<string, Value>, key: string): Option<Value>
  {
    match Get(state, key, Mapping(map[]))
    case Mapping(inner) => Some(Get(inner, "history", Empty))
    case _ => None
  }

  /** The history a debate state holds, when it can be read without raising. */
  ghost predicate HistoryReadable(state: map<string, Value>, key: string)
  {
    key !in state || state[key].Mapping?
  }

  /** What a report field holds after a default-on-missing read. */
  ghost predicate ReadsAs(state: map<string, Value>, key: string, v: Value)
  {
    (key in state && v == state[key]) || (key !in state && v == Empty)
  }

  /** What a nested `history` read holds, given that the debate state is readable. */
  ghost predicate HistoryReadsAs(state: map<string, Value>, key: string, v: Value)
  {
    if key in state && state[key].Mapping? && "history" in state[key].entries then v == state[key].entries["history"]
    else v == Empty
  }

  /** The record built for `item` from a successful engine call, or `None` when building it
      raises. Flat report fields never raise; only the two nested history reads can. */
  function BuildRow(runId: string, item: Item, state: map<string, Value>, decision: Value): (r: Option<Row>)
    ensures r.Some? <==> HistoryReadable(state, "investment_debate_state") && HistoryReadable(state, "risk_debate_state")
    ensures r.Some? ==>
      && r.value.runId == runId && r.value.ticker == item.ticker && r.value.date == item.date
      && r.value.decision == decision
      && ReadsAs(state, "market_report", r.value.marketReport)
      && ReadsAs(state, "news_report", r.value.newsReport)
      && ReadsAs(state, "sentiment_report", r.value.socialReport)
      && ReadsAs(state, "fundamentals_report", r.value.fundReport)
      && HistoryReadsAs(state, "investment_debate_state", r.value.investHistory)
      && ReadsAs(state, "trader_investment_decision", r.value.traderPlan)
      && HistoryReadsAs(state, "risk_debate_state", r.value.riskHistory)
      && ReadsAs(state, "final_trade_decision", r.value.riskDecision)
  {
    match (History(state, "investment_debate_state"), History(state, "risk_debate_state"))
    case (Some(investHistory), Some(riskHistory)) =>
      Some(Row(
        runId, item.ticker, item.date, decision,
        Get(state, "market_report", Empty),
        Get(state, "news_report", Empty),
        Get(state, "sentiment_report", Empty),
        Get(state, "fundamentals_report", Empty),
        investHistory,
        Get(state, "trader_investment_decision", Empty),
        riskHistory,
        Get(state, "final_trade_decision", Empty)))
    case _ => None
  }

  /** Missing-field tolerance: a state that lacks every report key still yields a record,
      whose report fields are all the empty string. */
  lemma EmptyStateRow(runId: string, item: Item, decision: Value)
    ensures var r := BuildRow(runId, item, map[], decision);
      && r.Some?
      && r.value.marketReport == r.value.newsReport == r.value.socialReport == r.value.fundReport == Empty
      && r.value.investHistory == r.value.traderPlan == r.value.riskHistory == r.value.riskDecision == Empty
  {
  }
}
