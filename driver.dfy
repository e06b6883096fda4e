/** The run driver: the nested loop of `main` (experiments/src/run_grid.py:39-61) that walks
    the grid of tickers and dates, calls the engine on each item, and either appends a record
    to the log or prints a warning. */
module Driver {
  import opened DateGrid
  import opened Report
  import opened Recorder

  /** The `dates` entry of the configuration: the keyword arguments of `daterange`. */
  datatype DateSpec = DateSpec(start: Ordinal, end: Ordinal, strideDays: Option<int>)
  {
    /** `stride_days`, which defaults to one day when the entry omits it. */
    function Stride(): int
    {
      match strideDays
      case Some(s) => s
      case None => 1
    }
  }

  /** The part of the run configuration that the grid loop reads. */
  datatype RunConfig = RunConfig(runId: string, tickers: seq<string>, dates: DateSpec)

  /** The outcome of `ta.propagate(ticker, date)`: it raises, or returns the final state and
      the decision. */
  datatype EngineResult =
    | Raised
    | Returned(state: map<string, Value>, decision: Value)

  /** The engine, built once before the loop. */
  type Engine = (string, Ordinal) -> EngineResult

  /** What the `try` body does with an item: the record it writes, or `None` when something
      in it raised and a warning is printed instead. */
  type Outcome = Item -> Option<Row>

  /** The items of one ticker, in date order. */
  function Sweep(ticker: string, days: seq<Ordinal>): seq<Item>
  {
    seq(|days|, j requires 0 <= j < |days| => Item(ticker, days[j]))
  }

  /** The work grid: tickers in the outer loop, in configuration order; dates in the inner
      loop. */
  function Grid(tickers: seq<string>, days: seq<Ordinal>): seq<Item>
  {
    if tickers == [] then []
    else Grid(tickers[..|tickers| - 1], days) + Sweep(tickers[|tickers| - 1], days)
  }

  /** The body of the `try` for one item: call the engine, build the record, serialise and
      write it. The result is the written record, or `None` when any of the three raised. */
  function Attempt(runId: string, engine: Engine, encode: Encoder, item: Item): Option<Row>
  {
    match engine(item.ticker, item.date)
    case Raised => None
    case Returned(state, decision) =>
      match BuildRow(runId, item, state, decision)
      case None => None
      case Some(row) => if encode(row).Some? then Some(row) else None
  }

  /** `Attempt` for every item of one run. */
  function Attempts(runId: string, engine: Engine, encode: Encoder): Outcome
  {
    item => Attempt(runId, engine, encode, item)
  }

  /** The records written for `items`, in order. */
  function Saved(outcome: Outcome, items: seq<Item>): seq<Row>
  {
    if items == [] then []
    else
      var prefix := Saved(outcome, items[..|items| - 1]);
      match outcome(items[|items| - 1])
      case Some(row) => prefix + [row]
      case None => prefix
  }

  /** The items whose record was written, in order. */
  function Succeeded(outcome: Outcome, items: seq<Item>): seq<Item>
  {
    if items == [] then []
    else
      var last := items[|items| - 1];
      Succeeded(outcome, items[..|items| - 1]) + (if outcome(last).Some? then [last] else [])
  }

  /** The items a warning was printed for, in order. */
  function Failed(outcome: Outcome, items: seq<Item>): seq<Item>
  {
    if items == [] then []
    else
      var last := items[|items| - 1];
      Failed(outcome, items[..|items| - 1]) + (if outcome(last).None? then [last] else [])
  }

  /** The run ends by raising exactly when there is a ticker and the date walk overflows. */
  predicate Aborts(cfg: RunConfig)
    requires cfg.dates.Stride() > 0
  {
    cfg.tickers != [] && Overflows(cfg.dates.start, cfg.dates.end, cfg.dates.Stride())
  }

  /** The items the run gets to. Every ticker re-walks the same dates; when that walk ends in
      `OverflowError`, the error escapes the loop (the `for` header is outside the `try`) as
      soon as the first ticker's dates are done. */
  function Processed(cfg: RunConfig): seq<Item>
    requires cfg.dates.Stride() > 0
  {
    var days := Dates(cfg.dates.start, cfg.dates.end, cfg.dates.Stride());
    if Aborts(cfg) then Grid(cfg.tickers[..1], days) else Grid(cfg.tickers, days)
  }

  /** What one more item adds: its record when its attempt succeeds, its warning otherwise. */
  lemma Step(outcome: Outcome, items: seq<Item>, item: Item)
    ensures outcome(item).Some? ==>
      && Failed(outcome, items + [item]) == Failed(outcome, items)
      && Saved(outcome, items + [item]) == Saved(outcome, items) + [outcome(item).value]
      && Succeeded(outcome, items + [item]) == Succeeded(outcome, items) + [item]
    ensures outcome(item).None? ==>
      && Failed(outcome, items + [item]) == Failed(outcome, items) + [item]
      && Saved(outcome, items + [item]) == Saved(outcome, items)
      && Succeeded(outcome, items + [item]) == Succeeded(outcome, items)
  {
    assert (items + [item])[..|items|] == items;
  }

  /** Splitting the items splits the records, the written items and the warnings the same
      way: the driver's output for a grid is its output for the first part followed by its
      output for the rest. */
  lemma {:induction false} Compose(outcome: Outcome, a: seq<Item>, b: seq<Item>)
    ensures Failed(outcome, a + b) == Failed(outcome, a) + Failed(outcome, b)
    ensures Saved(outcome, a + b) == Saved(outcome, a) + Saved(outcome, b)
    ensures Succeeded(outcome, a + b) == Succeeded(outcome, a) + Succeeded(outcome, b)
    decreases |b|
  {
    if b == [] {
      assert a + b == a;
    } else {
      var b', x := b[..|b| - 1], b[|b| - 1];
      assert a + b == (a + b') + [x];
      assert b == b' + [x];
      Compose(outcome, a, b');
      Step(outcome, a + b', x);
      Step(outcome, b', x);
      ConcatAssoc(Failed(outcome, a), Failed(outcome, b'), if outcome(x).None? then [x] else []);
      ConcatAssoc(Succeeded(outcome, a), Succeeded(outcome, b'), if outcome(x).Some? then [x] else []);
      if outcome(x).Some? {
        ConcatAssoc(Saved(outcome, a), Saved(outcome, b'), [outcome(x).value]);
      }
    }
  }

  /** The inner loop for one ticker: `for d in daterange(**cfg["dates"])` with the `try`
      around each date. `overflow` says that the date walk raised after its last date. */
  method RunTicker(cfg: RunConfig, engine: Engine, log: EpisodeLog, ticker: string)
    returns (failed: seq<Item>, overflow: bool)
    requires cfg.dates.Stride() > 0
    modifies log
    ensures overflow == Overflows(cfg.dates.start, cfg.dates.end, cfg.dates.Stride())
    ensures var items := Sweep(ticker, Dates(cfg.dates.start, cfg.dates.end, cfg.dates.Stride()));
      var outcome := Attempts(cfg.runId, engine, log.encode);
      && failed == Failed(outcome, items)
      && log.text == old(log.text) + Ndjson(Encoded(log.encode, Saved(outcome, items)))
  {
    var days;
    days, overflow := DateRange(cfg.dates.start, cfg.dates.end, cfg.dates.Stride());
    ghost var outcome := Attempts(cfg.runId, engine, log.encode);
    ghost var text0 := log.text;
    failed := [];
    for j := 0 to |days|
      invariant failed == Failed(outcome, Sweep(ticker, days[..j]))
      invariant log.text == text0 + Ndjson(Encoded(log.encode, Saved(outcome, Sweep(ticker, days[..j]))))
    {
      var item := Item(ticker, days[j]);
      ghost var text1 := log.text;
      var written := TryItem(cfg.runId, engine, log, item);
      TickerStep(outcome, log.encode, ticker, days, j, text0, text1, written);
      if !written {
        failed := failed + [item];
      }
    }
    assert days[..|days|] == days;
  }

  /** The loop invariant of the inner loop survives one more date. */
  lemma TickerStep(outcome: Outcome, encode: Encoder, ticker: string, days: seq<Ordinal>, j: int,
                   text0: string, text: string, written: bool)
    requires 0 <= j < |days|
    requires text == text0 + Ndjson(Encoded(encode, Saved(outcome, Sweep(ticker, days[..j]))))
    requires written == outcome(Item(ticker, days[j])).Some?
    ensures text + (if written then Line(encode, outcome(Item(ticker, days[j])).value) + "\n" else "") ==
      text0 + Ndjson(Encoded(encode, Saved(outcome, Sweep(ticker, days[..j + 1]))))
    ensures Failed(outcome, Sweep(ticker, days[..j + 1])) ==
      Failed(outcome, Sweep(ticker, days[..j])) + (if written then [] else [Item(ticker, days[j])])
  {
    var items, item := Sweep(ticker, days[..j]), Item(ticker, days[j]);
    assert Sweep(ticker, days[..j + 1]) == items + [item];
    Step(outcome, items, item);
    if written {
      NdjsonEncodedAppend(encode, Saved(outcome, items), outcome(item).value);
    }
  }

  /** The `try` block for one item: run the engine, build the record and save it. Returns
      whether a record was written; when it is false, the `except` branch prints a warning. */
  method TryItem(runId: string, engine: Engine, log: EpisodeLog, item: Item) returns (written: bool)
    modifies log
    ensures written == Attempts(runId, engine, log.encode)(item).Some?
    ensures log.text == old(log.text) +
      (if written then Line(log.encode, Attempts(runId, engine, log.encode)(item).value) + "\n" else "")
  {
    written := false;
    var result := engine(item.ticker, item.date);
    if result.Returned? {
      var row := BuildRow(runId, item, result.state, result.decision);
      if row.Some? {
        written := log.SaveRow(row.value);
      }
    }
  }

  /** The loop invariant of the outer loop survives one more ticker. */
  lemma GridStep(outcome: Outcome, encode: Encoder, done: seq<Item>, sweep: seq<Item>,
                 text0: string, text1: string, text2: string)
    requires text1 == text0 + Ndjson(Encoded(encode, Saved(outcome, done)))
    requires text2 == text1 + Ndjson(Encoded(encode, Saved(outcome, sweep)))
    ensures text2 == text0 + Ndjson(Encoded(encode, Saved(outcome, done + sweep)))
    ensures Failed(outcome, done + sweep) == Failed(outcome, done) + Failed(outcome, sweep)
  {
    Compose(outcome, done, sweep);
    NdjsonEncodedConcat(encode, Saved(outcome, done), Saved(outcome, sweep));
  }

  /** The grid of the first `i + 1` tickers extends that of the first `i` by ticker `i`'s
      dates. */
  lemma GridSnoc(tickers: seq<string>, days: seq<Ordinal>, i: int)
    requires 0 <= i < |tickers|
    ensures Grid(tickers[..i + 1], days) == Grid(tickers[..i], days) + Sweep(tickers[i], days)
  {
    assert tickers[..i + 1][..i] == tickers[..i];
  }

  /** The grid loop of `main`: tickers outer, dates inner. The warnings are the items a
      warning is printed for; `aborted` says that the date walk's `OverflowError` escaped the
      loop. */
  method RunGrid(cfg: RunConfig, engine: Engine, log: EpisodeLog) returns (warnings: seq<Item>, aborted: bool)
    requires cfg.dates.Stride() > 0
    modifies log
    ensures aborted == Aborts(cfg)
    ensures var outcome := Attempts(cfg.runId, engine, log.encode);
      && warnings == Failed(outcome, Processed(cfg))
      && log.text == old(log.text) + Ndjson(Encoded(log.encode, Saved(outcome, Processed(cfg))))
  {
    ghost var days := Dates(cfg.dates.start, cfg.dates.end, cfg.dates.Stride());
    ghost var outcome := Attempts(cfg.runId, engine, log.encode);
    ghost var text0 := log.text;
    warnings, aborted := [], false;
    var i := 0;
    while i < |cfg.tickers|
      invariant 0 <= i <= |cfg.tickers|
      invariant i > 0 ==> !Aborts(cfg)
      invariant warnings == Failed(outcome, Grid(cfg.tickers[..i], days))
      invariant log.text == text0 + Ndjson(Encoded(log.encode, Saved(outcome, Grid(cfg.tickers[..i], days))))
    {
      ghost var text1 := log.text;
      var failed, overflow := RunTicker(cfg, engine, log, cfg.tickers[i]);
      GridSnoc(cfg.tickers, days, i);
      GridStep(outcome, log.encode, Grid(cfg.tickers[..i], days), Sweep(cfg.tickers[i], days), text0, text1, log.text);
      warnings := warnings + failed;
      if overflow {
        aborted := true;
        assert i == 0;
        return;
      }
      i := i + 1;
    }
    assert cfg.tickers[..i] == cfg.tickers;
  }

  /** What the `try` body promises for one item: an engine that raises yields a warning; a
      written record carries the run identifier, the item's ticker and date and the engine's
      decision, and serialises; an engine that returns gets its record written exactly when
      both debate states are readable and the record serialises. */
  lemma AttemptSpec(runId: string, engine: Engine, encode: Encoder, item: Item)
    ensures engine(item.ticker, item.date).Raised? ==> Attempt(runId, engine, encode, item).None?
    ensures var r := Attempt(runId, engine, encode, item);
      r.Some? ==>
        && engine(item.ticker, item.date).Returned?
        && r.value.runId == runId && r.value.ticker == item.ticker && r.value.date == item.date
        && r.value.decision == engine(item.ticker, item.date).decision
        && encode(r.value).Some?
    ensures engine(item.ticker, item.date).Returned? ==>
      var res := engine(item.ticker, item.date);
      var row := BuildRow(runId, item, res.state, res.decision);
      (Attempt(runId, engine, encode, item).Some? <==>
        && HistoryReadable(res.state, "investment_debate_state")
        && HistoryReadable(res.state, "risk_debate_state")
        && encode(row.value).Some?)
      && (Attempt(runId, engine, encode, item).Some? ==> Attempt(runId, engine, encode, item) == row)
  {
  }

  /** Every item ends up in exactly one of the two outputs: it is written when its attempt
      succeeds and warned about when it fails, so records written = items attempted - items
      failed. */
  lemma {:induction false} Partition(outcome: Outcome, items: seq<Item>)
    ensures |Succeeded(outcome, items)| + |Failed(outcome, items)| == |items|
    ensures forall x :: x in Failed(outcome, items) <==> x in items && outcome(x).None?
    ensures forall x :: x in Succeeded(outcome, items) <==> x in items && outcome(x).Some?
    decreases |items|
  {
    if items != [] {
      var prefix, last := items[..|items| - 1], items[|items| - 1];
      assert items == prefix + [last];
      Partition(outcome, prefix);
      Step(outcome, prefix, last);
    }
  }

  /** The k-th written record is the record of the k-th item that succeeded. */
  lemma {:induction false} SavedMatchesSucceeded(outcome: Outcome, items: seq<Item>)
    ensures |Saved(outcome, items)| == |Succeeded(outcome, items)|
    ensures forall k :: 0 <= k < |Saved(outcome, items)| ==>
      outcome(Succeeded(outcome, items)[k]) == Some(Saved(outcome, items)[k])
    decreases |items|
  {
    if items != [] {
      var prefix, last := items[..|items| - 1], items[|items| - 1];
      assert items == prefix + [last];
      SavedMatchesSucceeded(outcome, prefix);
      Step(outcome, prefix, last);
    }
  }

  /** Failure isolation: an item whose attempt fails adds its warning and nothing to the
      log, and the loop goes on with the items after it exactly as if it were absent. */
  lemma FailureIsolation(outcome: Outcome, before: seq<Item>, item: Item, after: seq<Item>)
    requires outcome(item).None?
    ensures Saved(outcome, before + [item] + after) == Saved(outcome, before) + Saved(outcome, after)
    ensures Failed(outcome, before + [item] + after) == Failed(outcome, before) + [item] + Failed(outcome, after)
  {
    Compose(outcome, before + [item], after);
    Step(outcome, before, item);
  }

  /** Every record written by a run serialises, so the lines of the log determine the
      records. */
  lemma {:induction false} SavedEncodable(runId: string, engine: Engine, encode: Encoder, items: seq<Item>)
    ensures var rows := Saved(Attempts(runId, engine, encode), items);
      forall k :: 0 <= k < |rows| ==> encode(rows[k]).Some?
    decreases |items|
  {
    var outcome := Attempts(runId, engine, encode);
    if items != [] {
      var prefix, last := items[..|items| - 1], items[|items| - 1];
      assert items == prefix + [last];
      SavedEncodable(runId, engine, encode, prefix);
      Step(outcome, prefix, last);
      AttemptSpec(runId, engine, encode, last);
    }
  }

  /** Grid order: tickers outer in their configured order, dates inner in date order. The
      grid holds one item per ticker and date, and position `k` holds ticker `k / |days|` on
      date `k % |days|`. */
  lemma GridShape(tickers: seq<string>, days: seq<Ordinal>)
    ensures |Grid(tickers, days)| == |tickers| * |days|
    ensures forall k :: 0 <= k < |Grid(tickers, days)| ==>
      && |days| > 0 && k / |days| < |tickers|
      && Grid(tickers, days)[k] == Item(tickers[k / |days|], days[k % |days|])
  {
    GridLength(tickers, days);
    forall k | 0 <= k < |Grid(tickers, days)| {
      GridIndex(tickers, days, k);
    }
  }

  /** One position of the grid, by its offset. */
  lemma GridIndex(tickers: seq<string>, days: seq<Ordinal>, k: int)
    requires 0 <= k < |Grid(tickers, days)|
    ensures |days| > 0 && k / |days| < |tickers|
    ensures Grid(tickers, days)[k] == Item(tickers[k / |days|], days[k % |days|])
  {
    var n, m := |tickers|, |days|;
    GridLength(tickers, days);
    PositiveFactor(n, m);
    QuotientBelow(k, n, m);
    var i, j := k / m, k % m;
    DivMod(k, m);
    GridAt(tickers, days, i, j, k);
  }

  /** Euclidean division of a natural splits it into whole rows and a column. */
  lemma DivMod(k: int, m: int)
    requires k >= 0 && m > 0
    ensures 0 <= k / m && 0 <= k % m < m && k == (k / m) * m + k % m
  {
  }

  /** A positive product of naturals has a positive right factor. */
  lemma PositiveFactor(n: int, m: int)
    requires n >= 0 && m >= 0 && n * m > 0
    ensures m > 0
  {
  }

  /** An offset below `n * m` lies in one of the first `n` rows of width `m`. */
  lemma QuotientBelow(k: int, n: int, m: int)
    requires m > 0 && 0 <= k < n * m
    ensures k / m < n
  {
  }

  /** The grid holds one item per ticker and date. */
  lemma {:induction false} GridLength(tickers: seq<string>, days: seq<Ordinal>)
    ensures |Grid(tickers, days)| == |tickers| * |days|
    decreases |tickers|
  {
    var n, m := |tickers|, |days|;
    if n > 0 {
      GridLength(tickers[..n - 1], days);
      assert (n - 1) * m + m == n * m;
    }
  }

  /** One position of the grid: offset `k` of row `i`, column `j`. */
  lemma {:induction false} GridAt(tickers: seq<string>, days: seq<Ordinal>, i: int, j: int, k: int)
    requires 0 <= i < |tickers| && 0 <= j < |days| && k == i * |days| + j
    ensures 0 <= k < |Grid(tickers, days)|
    ensures Grid(tickers, days)[k] == Item(tickers[i], days[j])
    decreases |tickers|
  {
    var n, m := |tickers|, |days|;
    var front := tickers[..n - 1];
    var g, last := Grid(front, days), Sweep(tickers[n - 1], days);
    assert Grid(tickers, days) == g + last;
    GridLength(front, days);
    if i < n - 1 {
      GridAt(front, days, i, j, k);
      assert Grid(tickers, days)[k] == g[k];
    } else {
      assert k == |g| + j;
      assert Grid(tickers, days)[k] == last[j];
    }
  }

  /** With the last date at the end of the calendar, the walk overflows on the first ticker,
      so the run writes or warns about that ticker's one date only and then aborts. */
  lemma AbortAtCalendarEnd(runId: string, tickers: seq<string>)
    requires tickers != []
    ensures var cfg := RunConfig(runId, tickers, DateSpec(MaxOrdinal, MaxOrdinal, None));
      Aborts(cfg) && Processed(cfg) == [Item(tickers[0], MaxOrdinal)]
  {
    var cfg := RunConfig(runId, tickers, DateSpec(MaxOrdinal, MaxOrdinal, None));
    OverflowAtCalendarEnd();
    assert cfg.dates.Stride() == 1;
    var front := tickers[..1];
    assert front[..0] == [];
    assert Grid(front, [MaxOrdinal]) == Grid([], [MaxOrdinal]) + Sweep(tickers[0], [MaxOrdinal]);
  }

  /** A whole run, read back: the log gains exactly one line per written record, after the
      lines it already held; every processed item is either written or warned about; and the
      run processes the full grid of tickers and dates, or only the first ticker's dates when
      it aborts. */
  lemma RunSummary(cfg: RunConfig, engine: Engine, encode: Encoder, text0: string)
    requires cfg.dates.Stride() > 0
    requires NewlineFree(encode) && Complete(text0)
    ensures var outcome := Attempts(cfg.runId, engine, encode);
      var items := Processed(cfg);
      var rows := Saved(outcome, items);
      && SplitLines(text0 + Ndjson(Encoded(encode, rows))) == SplitLines(text0) + Encoded(encode, rows)
      && |rows| + |Failed(outcome, items)| == |items|
      && |items| == (if Aborts(cfg) then 1 else |cfg.tickers|) * |Dates(cfg.dates.start, cfg.dates.end, cfg.dates.Stride())|
  {
    var outcome := Attempts(cfg.runId, engine, encode);
    var items := Processed(cfg);
    var days := Dates(cfg.dates.start, cfg.dates.end, cfg.dates.Stride());
    AppendRows(encode, text0, Saved(outcome, items));
    Partition(outcome, items);
    SavedMatchesSucceeded(outcome, items);
    if Aborts(cfg) {
      GridLength(cfg.tickers[..1], days);
    } else {
      GridLength(cfg.tickers, days);
    }
  }

  /** Two tickers over two consecutive days, with the second ticker's first day failing: the
      grid is walked tickers outer, dates inner; the one failure yields one warning and the
      other three items are written, in grid order. */
  lemma OneFailureScenario(runId: string, outcome: Outcome, d: Ordinal)
    requires d + 2 <= MaxOrdinal
    requires forall x :: outcome(x).None? <==> x == Item("BBB", d)
    ensures var cfg := RunConfig(runId, ["AAA", "BBB"], DateSpec(d, d + 1, Some(1)));
      && !Aborts(cfg)
      && Processed(cfg) == [Item("AAA", d), Item("AAA", d + 1), Item("BBB", d), Item("BBB", d + 1)]
      && Failed(outcome, Processed(cfg)) == [Item("BBB", d)]
      && Saved(outcome, Processed(cfg)) ==
           [outcome(Item("AAA", d)).value, outcome(Item("AAA", d + 1)).value, outcome(Item("BBB", d + 1)).value]
  {
    var next: Ordinal := d + 1;
    TwoByTwoGrid(runId, d);
    ThirdFails(outcome, Item("AAA", d), Item("AAA", next), Item("BBB", d), Item("BBB", next));
  }

  /** The grid of two tickers over two consecutive days, away from the end of the calendar. */
  lemma TwoByTwoGrid(runId: string, d: Ordinal)
    requires d + 2 <= MaxOrdinal
    ensures var cfg := RunConfig(runId, ["AAA", "BBB"], DateSpec(d, d + 1, Some(1)));
      && !Aborts(cfg)
      && Processed(cfg) == [Item("AAA", d), Item("AAA", d + 1), Item("BBB", d), Item("BBB", d + 1)]
  {
    var next: Ordinal := d + 1;
    assert Dates(next, next, 1) == [next];
    var days := Dates(d, next, 1);
    assert days == [d, next];
    var tickers := ["AAA", "BBB"];
    assert tickers[..1] == ["AAA"] && tickers[..1][..0] == [];
    assert Grid(tickers, days) == Grid(["AAA"], days) + Sweep("BBB", days);
    assert Grid(["AAA"], days) == Grid([], days) + Sweep("AAA", days);
  }

  /** Four items of which only the third fails. */
  lemma ThirdFails(outcome: Outcome, a0: Item, a1: Item, b0: Item, b1: Item)
    requires outcome(a0).Some? && outcome(a1).Some? && outcome(b0).None? && outcome(b1).Some?
    ensures Failed(outcome, [a0, a1, b0, b1]) == [b0]
    ensures Saved(outcome, [a0, a1, b0, b1]) == [outcome(a0).value, outcome(a1).value, outcome(b1).value]
  {
    Step(outcome, [], a0);
    assert [] + [a0] == [a0];
    Step(outcome, [a0], a1);
    assert [a0] + [a1] == [a0, a1];
    Step(outcome, [a0, a1], b0);
    assert [a0, a1] + [b0] == [a0, a1, b0];
    Step(outcome, [a0, a1, b0], b1);
    assert [a0, a1, b0] + [b1] == [a0, a1, b0, b1];
  }

  /** Two tickers over two consecutive days with every item succeeding: no warning, and the
      four records are written in grid order. */
  lemma AllSucceedScenario(runId: string, outcome: Outcome, d: Ordinal)
    requires d + 2 <= MaxOrdinal
    requires forall x :: outcome(x).Some?
    ensures var cfg := RunConfig(runId, ["AAA", "BBB"], DateSpec(d, d + 1, Some(1)));
      && Failed(outcome, Processed(cfg)) == []
      && Saved(outcome, Processed(cfg)) ==
           [outcome(Item("AAA", d)).value, outcome(Item("AAA", d + 1)).value,
            outcome(Item("BBB", d)).value, outcome(Item("BBB", d + 1)).value]
  {
    var next: Ordinal := d + 1;
    TwoByTwoGrid(runId, d);
    NoneFails(outcome, Item("AAA", d), Item("AAA", next), Item("BBB", d), Item("BBB", next));
  }

  /** Four items that all succeed: no warning, and their four records in order. */
  lemma NoneFails(outcome: Outcome, a0: Item, a1: Item, b0: Item, b1: Item)
    requires outcome(a0).Some? && outcome(a1).Some? && outcome(b0).Some? && outcome(b1).Some?
    ensures Failed(outcome, [a0, a1, b0, b1]) == []
    ensures Saved(outcome, [a0, a1, b0, b1]) ==
      [outcome(a0).value, outcome(a1).value, outcome(b0).value, outcome(b1).value]
  {
    Step(outcome, [], a0);
    assert [] + [a0] == [a0];
    Step(outcome, [a0], a1);
    assert [a0] + [a1] == [a0, a1];
    Step(outcome, [a0, a1], b0);
    assert [a0, a1] + [b0] == [a0, a1, b0];
    Step(outcome, [a0, a1, b0], b1);
    assert [a0, a1, b0] + [b1] == [a0, a1, b0, b1];
  }
}
