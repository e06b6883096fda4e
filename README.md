# Grid experiment runner: a verified model

`experiments/src/run_grid.py` runs a trading-agent engine over a grid of work items. Each
item is one ticker on one date. For every item the script calls the engine and builds a
flat record from the state the engine returns. It appends that record as one JSON line to
the run's `episodes.ndjson` log. An `Exception` raised inside the per-item `try`
produces a warning instead, and the loop goes on. This project models that core in Dafny:

- `dates.dfy` (module `DateGrid`): the `daterange` generator.
  - `DateRange` is the `while` loop that steps a date cursor.
  - `Dates` is the recursive specification the loop is proved against.
  - Dates are Python day ordinals, from 1 (`date.min`) to 3652059 (`date.max`).
  - `Overflows` describes the `OverflowError` that `d += timedelta(...)` raises once the
    cursor would step past `date.max`.
- `report.dfy` (module `Report`): `BuildRow` is the pure record construction.
  - Flat fields use default-on-missing reads.
  - The two debate histories use nested reads. A nested read raises when the debate state
    is present but is not a mapping.
- `recorder.dfy` (module `Recorder`): `save_row` as `EpisodeLog.SaveRow`.
  - The class holds the log file's text and only ever appends to it.
  - `Ndjson` and `SplitLines` give the write and read-back views of the file, and the
    lemmas prove that reading the file back recovers the lines that were written.
- `driver.dfy` (module `Driver`): the nested loop of `main`.
  - `RunGrid` loops over tickers and `RunTicker` over dates. `TryItem` is the `try` body.
  - They are proved against the specification functions `Grid`, `Processed`, `Attempt`,
    `Saved`, `Succeeded` and `Failed`.
  - The log's new text is the NDJSON of the records of the items that succeeded, in grid
    order. The warnings are exactly the items that failed, in grid order.

The engine is a function value from a ticker and a date to `Raised` or
`Returned(state, decision)`. `json.dumps` is a function value from a record to `None`
(the call raised) or a line. The log's read-back lemmas require only that this serialiser never
emits a raw newline (`NewlineFree`). `EncodedInjective` alone also assumes that different
records serialise differently (`Injective`), which `json.dumps` does not promise.

The date walk can raise, and when it does the error escapes the whole loop. The
`for d in daterange(...)` header sits outside the `try`, so a date walk whose last date
lies within one stride of 9999-12-31 raises `OverflowError` there. That ends the run right
after the first ticker's dates (`Aborts`, `Processed`, `AbortAtCalendarEnd`).

## Model

| member | source | states |
|---|---|---|
| DateGrid.Dates | experiments/src/run_grid.py:12-15 | The walk yields nothing exactly when `start > end`, and otherwise starts at `start`. |
| DateGrid.DateRange | experiments/src/run_grid.py:11-16 | The loop yields exactly `Dates(start, end, stride)`, in order. It reports an overflow exactly when stepping past the last yielded date leaves the range of Python dates. |
| DateGrid.DatesClosedForm | experiments/src/run_grid.py:14-16 | The i-th yielded date is `start + i*stride` and is at most `end`. There are `(end - start) / stride + 1` dates when `start <= end`. One more step passes `end`. |
| DateGrid.DatesCount | experiments/src/run_grid.py:14-16 | The yield count is `(end - start) / stride + 1` when `start <= end`. |
| DateGrid.DatesElements | experiments/src/run_grid.py:14-16 | Every yielded date is `start + i*stride`, none exceeds `end`, and the step after the last one exceeds `end`. |
| DateGrid.ConsecutiveDates | experiments/src/run_grid.py:15-16 | Consecutive yielded dates differ by exactly `stride`. |
| DateGrid.DatesStrictlyIncrease | experiments/src/run_grid.py:14-16 | Yielded dates strictly increase, so the walk never repeats a date. |
| DateGrid.OverflowCondition | experiments/src/run_grid.py:16 | The walk raises iff `start <= end` and the step after the last date `start + ((end-start)/stride)*stride` passes `date.max`. It never raises when `end + stride` is still a date. |
| DateGrid.OverflowAtCalendarEnd | experiments/src/run_grid.py:14-16 | With start = end = 9999-12-31 and stride 1, the walk yields that one date and then raises. |
| Report.BuildRow | experiments/src/run_grid.py:45-58 | A record is built iff neither debate state is present as a non-mapping. It carries the given run id, ticker, date and decision. Each report field is read from its source key, or is `""` when the key is missing. `social_report` comes from `sentiment_report`, `fund_report` from `fundamentals_report`, `trader_plan` from `trader_investment_decision` and `risk_decision` from `final_trade_decision`. The histories come from the nested `history` keys, or are `""` when the state or the key is missing. |
| Report.EmptyStateRow | experiments/src/run_grid.py:49-56 | A state with none of the keys still yields a record, and every report field in it is `""`. |
| Recorder.NdjsonAppend | experiments/src/run_grid.py:20 | Writing two batches of lines gives the concatenation of their NDJSON texts. |
| Recorder.NdjsonEncodedAppend | experiments/src/run_grid.py:20 | Writing one more record appends its line and a newline, and nothing else. |
| Recorder.NdjsonEncodedConcat | experiments/src/run_grid.py:20 | The text written for two batches of records is the text of the first batch followed by that of the second. |
| Recorder.SplitNdjson | experiments/src/run_grid.py:20 | Reading back NDJSON text written from newline-free lines gives exactly those lines. |
| Recorder.SplitAppend | experiments/src/run_grid.py:20 | Appending NDJSON to a file of whole lines keeps every earlier line unchanged and adds exactly the new lines after them. |
| Recorder.AppendRows | experiments/src/run_grid.py:20 | Appending N records to a file of whole lines adds exactly N lines, one per record, in order, after the earlier lines. |
| Recorder.EncodedInjective | experiments/src/run_grid.py:20 | With an injective serialiser, the written lines of serialisable records determine the records. |
| Recorder.EpisodeLog.constructor | experiments/src/run_grid.py:20 | The log starts from the file's current text (empty for a new run directory) and uses the given serialiser. |
| Recorder.EpisodeLog.SaveRow | experiments/src/run_grid.py:19-20 | When the row serialises, the text grows by exactly that line and a newline. When serialisation raises, nothing is written. The file then ends in a newline, and read back it holds the old lines plus the new one. |
| Driver.RunGrid | experiments/src/run_grid.py:39-61 | The warnings equal `Failed` over the processed items, and the new log text is the NDJSON of `Saved` over them. The run aborts exactly when the date walk overflows and there is a ticker. |
| Driver.RunTicker | experiments/src/run_grid.py:40-61 | For one ticker's dates, the warnings equal the failed items in date order. The log grows by the NDJSON of the written records in date order. The walk's overflow is reported. |
| Driver.TryItem | experiments/src/run_grid.py:41-59 | A record is written iff the item's attempt succeeds, and then the log grows by exactly its line. Otherwise nothing is written. |
| Driver.AttemptSpec | experiments/src/run_grid.py:43-59 | An engine that raises gives a warning. A written record carries the run id, ticker, date and engine decision, and serialises. For an engine that returns, the record is written iff both debate states are readable and the record serialises. |
| Driver.Step | experiments/src/run_grid.py:59-61 | One more item adds its record when its attempt succeeds, or its warning when it fails, and nothing else. |
| Driver.Compose | experiments/src/run_grid.py:39-61 | Records, written items and warnings of a concatenation of item sequences are the concatenations of those of the parts. |
| Driver.Partition | experiments/src/run_grid.py:41-61 | Records written plus warnings equals items attempted. An item is warned about iff it is processed and its attempt fails. It is written iff it is processed and its attempt succeeds. |
| Driver.SavedMatchesSucceeded | experiments/src/run_grid.py:45-59 | The k-th record in the log is the record of the k-th successful item. |
| Driver.FailureIsolation | experiments/src/run_grid.py:60-61 | A failing item adds one warning and no record. The items after it are handled exactly as if it were absent. |
| Driver.SavedEncodable | experiments/src/run_grid.py:59 | Every record that a run writes serialises. |
| Driver.GridShape | experiments/src/run_grid.py:39-40 | The grid has `|tickers| * |days|` items. Position k is ticker `k / |days|` on date `k % |days|`: tickers outer in configured order, dates inner in date order. |
| Driver.GridLength | experiments/src/run_grid.py:39-40 | The grid holds one item per ticker and date. |
| Driver.GridAt | experiments/src/run_grid.py:39-40 | Offset `i * |days| + j` of the grid holds ticker i on date j. |
| Driver.AbortAtCalendarEnd | experiments/src/run_grid.py:39-40 | With the single date 9999-12-31, the run processes only the first ticker's date and then aborts. |
| Driver.RunSummary | experiments/src/run_grid.py:39-61 | The log read back is the old lines plus one line per written record. Records plus warnings equal processed items. A run processes `|tickers| * |dates|` items, or one ticker's dates when it aborts. |
| Driver.OneFailureScenario | experiments/src/run_grid.py:39-61 | Two tickers over two days with one failing item: the grid is AAA d, AAA d+1, BBB d, BBB d+1. There is one warning for BBB d, and the three other records are written in grid order. |
| Driver.TwoByTwoGrid | experiments/src/run_grid.py:39-40 | Two tickers over two consecutive days form the four items in ticker-major order, and the run does not abort. |
| Driver.ThirdFails | experiments/src/run_grid.py:41-61 | When only the third of four items fails, it is the one warning and the other three are written in order. |
| Driver.AllSucceedScenario | experiments/src/run_grid.py:39-61 | Two tickers over two days with every item succeeding: no warning, and exactly four records are written, AAA d, AAA d+1, BBB d, BBB d+1. |
| Driver.NoneFails | experiments/src/run_grid.py:41-61 | When none of four items fails, there is no warning and the four records are written in order. |

## Left out

- ISO 8601 text: `date.fromisoformat`, `isoformat` and `timedelta` arithmetic are library code. Dates are day ordinals throughout, and the record's `date` is the ordinal, not its `YYYY-MM-DD` text.
- `duration_s` and the `time.time()` calls are not modelled. A record has no duration field because its value is wall-clock floating point.
- JSON details: `json.dumps` is an abstract serialiser. It may raise (`None`). The log's read-back lemmas rely only on it never emitting a raw newline, which `json.dumps` guarantees by escaping newlines in strings. It is not injective (a tuple and a list, or the keys `1` and `"1"`, serialise alike), so injectivity is a hypothesis of `EncodedInjective` only.
- Configuration loading, `load_dotenv`, the results-directory environment variable, `mkdir` and `argparse` are process plumbing and are not modelled. The grid loop receives the run id, tickers and date range as a `RunConfig`.
- Engine construction (`TradingAgentsGraph`, the `DEFAULT_CONFIG` overrides) is a foreign library. The engine is built once, outside the `try`, and is a parameter of the driver.
- The engine is a pure function of ticker and date. Any state it keeps between calls is not modelled.
- A `state` that is not a mapping, or a `propagate` result that does not unpack into two values, raises inside the `try`. Both count as `Raised`. Non-mapping values inside the state are `Opaque`, and `.get` on them raises.
- DateGrid.DateRange: requires `stride > 0`. When `start > end` the source yields nothing for any stride. When `start <= end`, stride 0 loops forever and a negative stride walks down to `date.min` and then raises `OverflowError`. Non-positive strides are not modelled.
- Only `Exception` subclasses are modelled as failures of an item. A `BaseException` that is not an `Exception` (`KeyboardInterrupt` during `propagate`, `SystemExit`), or an exception raised by the warning `print` itself, escapes the loop and ends the run with no warning. The log then holds the lines of the records written up to the last complete write.
- The text of the warning line is left out. A warning is the `(ticker, date)` item it names.
- I/O errors from opening or writing the file are not modelled. An error raised by `open` would land in the `except` branch like any other.
- Flushing and closing of the file object, which CPython does when its reference count drops, is not modelled; the log text is updated at once.
- Generator laziness is not modelled: `RunTicker` computes a ticker's dates before its loop. The loop body cannot affect the walk, so the same items are visited in the same order, and an overflow at the end of the walk is reported after the last item.
- Recorder.EpisodeLog.SaveRow: the read-back guarantee (the old lines plus one new line) is stated only when the serialiser is newline-free and the file already ends in a newline. A file that ends mid-line would merge its last line with the new one.
