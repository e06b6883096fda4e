/** The result recorder (`save_row`, experiments/src/run_grid.py:19-20): every call opens
    the run's `episodes.ndjson` in append mode and writes one serialised record followed by
    a newline. */
module Recorder {
  import opened Report

  /** The serialiser `json.dumps`: the text of a record, or `None` when it raises
      (a value it cannot serialise). */
  type Encoder = Row -> Option<string>

  /** What the log's read-back relies on from the serialiser: its output never contains a raw
      newline (`json.dumps` escapes newlines inside strings). */
  ghost predicate NewlineFree(encode: Encoder)
  {
    forall r :: encode(r).Some? ==> '\n' !in encode(r).value
  }

  /** Different records serialise differently. `json.dumps` does not promise this (a tuple
      and a list, or the keys `1` and `"1"`, serialise alike), so only `EncodedInjective`
      assumes it. */
  ghost predicate Injective(encode: Encoder)
  {
    forall r1, r2 :: encode(r1).Some? && encode(r1) == encode(r2) ==> r1 == r2
  }

  ghost predicate SingleLines(lines: seq<string>)
  {
    forall i :: 0 <= i < |lines| ==> '\n' !in lines[i]
  }

  /** Text that consists of whole lines: empty, or ending in a newline. */
  ghost predicate Complete(text: string)
  {
    text == [] || text[|text| - 1] == '\n'
  }

  /** The line written for a record: its serialised form (a record that does not serialise
      is never written). */
  function Line(encode: Encoder, row: Row): string
  {
    match encode(row)
    case Some(line) => line
    case None => ""
  }

  /** The lines written for a sequence of records. */
  function Encoded(encode: Encoder, rows: seq<Row>): (lines: seq<string>)
    ensures |lines| == |rows|
    ensures forall i :: 0 <= i < |rows| ==> lines[i] == Line(encode, rows[i])
  {
    seq(|rows|, i requires 0 <= i < |rows| => Line(encode, rows[i]))
  }

  /** Writing one more record appends its line and a newline to the text. */
  lemma NdjsonEncodedAppend(encode: Encoder, rows: seq<Row>, row: Row)
    ensures Ndjson(Encoded(encode, rows + [row])) == Ndjson(Encoded(encode, rows)) + Line(encode, row) + "\n"
  {
    assert Encoded(encode, rows + [row]) == Encoded(encode, rows) + [Line(encode, row)];
    NdjsonAppend(Encoded(encode, rows), [Line(encode, row)]);
    assert Ndjson([Line(encode, row)]) == Line(encode, row) + "\n";
  }

  /** Writing two batches of records one after the other writes the NDJSON of both. */
  lemma NdjsonEncodedConcat(encode: Encoder, a: seq<Row>, b: seq<Row>)
    ensures Ndjson(Encoded(encode, a + b)) == Ndjson(Encoded(encode, a)) + Ndjson(Encoded(encode, b))
  {
    assert Encoded(encode, a + b) == Encoded(encode, a) + Encoded(encode, b);
    NdjsonAppend(Encoded(encode, a), Encoded(encode, b));
  }

  /** The NDJSON text of a sequence of lines: each line followed by a newline. */
  function Ndjson(lines: seq<string>): string
  {
    if lines == [] then "" else lines[0] + "\n" + Ndjson(lines[1..])
  }

  /** The index of the first newline in `text`, or `|text|` when there is none. */
  function LineEnd(text: string): (k: nat)
    ensures k <= |text|
    ensures k < |text| ==> text[k] == '\n'
    ensures '\n' !in text[..k]
  {
    if text == [] || text[0] == '\n' then 0
    else
      var k := 1 + LineEnd(text[1..]);
      assert text[..k] == [text[0]] + text[1..][..k - 1];
      k
  }

  /** The lines of a text, as a reader of the file splits it; a trailing piece without a
      newline counts as a last line. */
  function SplitLines(text: string): seq<string>
    decreases |text|
  {
    if text == [] then []
    else
      var k := LineEnd(text);
      if k == |text| then [text] else [text[..k]] + SplitLines(text[k + 1..])
  }

  /** A text with a newline splits into the piece before it and the lines after it. */
  lemma SplitStep(text: string)
    requires LineEnd(text) < |text|
    ensures SplitLines(text) == [text[..LineEnd(text)]] + SplitLines(text[LineEnd(text) + 1..])
  {
  }

  /** The first line of `a + "\n" + b` is `a` when `a` holds no newline. */
  lemma FirstLine(a: string, b: string)
    requires '\n' !in a
    ensures LineEnd(a + "\n" + b) == |a|
  {
    var t := a + "\n" + b;
    var k := LineEnd(t);
    assert t[|a|] == '\n';
    assert forall j :: 0 <= j < k ==> t[..k][j] == t[j];
    assert forall j :: 0 <= j < |a| ==> t[j] == a[j];
  }

  /** NDJSON of a concatenation is the concatenation of the NDJSON texts. */
  lemma {:induction false} NdjsonAppend(a: seq<string>, b: seq<string>)
    ensures Ndjson(a + b) == Ndjson(a) + Ndjson(b)
  {
    if a == [] {
      assert a + b == b;
    } else {
      NdjsonAppend(a[1..], b);
      assert (a + b)[1..] == a[1..] + b;
      calc {
        Ndjson(a + b);
        a[0] + "\n" + Ndjson(a[1..] + b);
        a[0] + "\n" + (Ndjson(a[1..]) + Ndjson(b));
        (a[0] + "\n" + Ndjson(a[1..])) + Ndjson(b);
      }
    }
  }

  /** Reading back NDJSON text gives exactly the lines that were written. */
  lemma {:induction false} SplitNdjson(lines: seq<string>)
    requires SingleLines(lines)
    ensures SplitLines(Ndjson(lines)) == lines
  {
    if lines != [] {
      var rest := Ndjson(lines[1..]);
      var t := lines[0] + "\n" + rest;
      var k := |lines[0]|;
      FirstLine(lines[0], rest);
      assert t[..k] == lines[0];
      assert t[k + 1..] == rest;
      SplitStep(t);
      SplitNdjson(lines[1..]);
      assert SplitLines(t) == [lines[0]] + lines[1..];
    }
  }

  /** Text appended after a newline does not move the first newline. */
  lemma LineEndAppend(text: string, more: string)
    requires LineEnd(text) < |text|
    ensures LineEnd(text + more) == LineEnd(text)
  {
    var t, k, k' := text + more, LineEnd(text), LineEnd(text + more);
    assert t[k] == '\n';
    assert forall j :: 0 <= j < k' ==> t[..k'][j] == t[j];
    assert forall j :: 0 <= j < k ==> t[j] == text[j] == text[..k][j];
  }

  /** A nonempty text of whole lines has a first newline, and what follows it is again
      whole lines. */
  lemma CompleteTail(text: string)
    requires text != [] && Complete(text)
    ensures LineEnd(text) < |text|
    ensures Complete(text[LineEnd(text) + 1..])
  {
    var k := LineEnd(text);
    assert k < |text|;
    var tail := text[k + 1..];
    if tail != [] {
      assert tail[|tail| - 1] == text[|text| - 1];
    }
  }

  /** The first line of a text that ends in a newline, and what follows it, are unchanged by
      appending more text. */
  lemma SplitFirstLine(text: string, more: string)
    requires text != [] && Complete(text)
    ensures LineEnd(text) < |text|
    ensures Complete(text[LineEnd(text) + 1..])
    ensures SplitLines(text + more) == [text[..LineEnd(text)]] + SplitLines(text[LineEnd(text) + 1..] + more)
  {
    CompleteTail(text);
    var k := LineEnd(text);
    LineEndAppend(text, more);
    SplitStep(text + more);
    assert (text + more)[..k] == text[..k];
    assert (text + more)[k + 1..] == text[k + 1..] + more;
  }

  lemma ConcatAssoc<T>(a: seq<T>, b: seq<T>, c: seq<T>)
    ensures a + (b + c) == (a + b) + c
  {
  }

  /** Appending NDJSON to a log of whole lines keeps every earlier line and adds exactly the
      new lines, in order, after them. */
  lemma {:induction false} SplitAppend(text: string, lines: seq<string>)
    requires Complete(text)
    requires SingleLines(lines)
    ensures SplitLines(text + Ndjson(lines)) == SplitLines(text) + lines
    decreases |text|
  {
    if text == [] {
      assert text + Ndjson(lines) == Ndjson(lines);
      SplitNdjson(lines);
    } else {
      SplitFirstLine(text, Ndjson(lines));
      var k := LineEnd(text);
      SplitAppend(text[k + 1..], lines);
      ConcatAssoc([text[..k]], SplitLines(text[k + 1..]), lines);
    }
  }

  /** Lines from a newline-free serialiser hold no newline. */
  lemma EncodedSingleLines(encode: Encoder, rows: seq<Row>)
    requires NewlineFree(encode)
    ensures SingleLines(Encoded(encode, rows))
  {
    forall k | 0 <= k < |rows|
      ensures '\n' !in Encoded(encode, rows)[k]
    {
      if encode(rows[k]).Some? {
        assert '\n' !in encode(rows[k]).value;
      }
    }
  }

  /** Appending the NDJSON of a batch of records to a log of whole lines adds exactly one
      line per record, in order, and keeps every earlier line. */
  lemma AppendRows(encode: Encoder, text: string, rows: seq<Row>)
    requires NewlineFree(encode)
    requires Complete(text)
    ensures SplitLines(text + Ndjson(Encoded(encode, rows))) == SplitLines(text) + Encoded(encode, rows)
    ensures |SplitLines(text + Ndjson(Encoded(encode, rows)))| == |SplitLines(text)| + |rows|
  {
    EncodedSingleLines(encode, rows);
    SplitAppend(text, Encoded(encode, rows));
  }

  /** Under an injective serialiser, the lines of serialisable records determine the
      records. */
  lemma EncodedInjective(encode: Encoder, rows1: seq<Row>, rows2: seq<Row>)
    requires Injective(encode)
    requires forall k :: 0 <= k < |rows1| ==> encode(rows1[k]).Some?
    requires forall k :: 0 <= k < |rows2| ==> encode(rows2[k]).Some?
    requires Encoded(encode, rows1) == Encoded(encode, rows2)
    ensures rows1 == rows2
  {
    forall k | 0 <= k < |rows1|
      ensures rows1[k] == rows2[k]
    {
      assert Line(encode, rows1[k]) == Line(encode, rows2[k]);
      assert encode(rows1[k]) == encode(rows2[k]);
    }
  }

  /** The run's `episodes.ndjson`. The file is only ever opened in append mode, so its text
      only grows. */
  class EpisodeLog {
    /** The contents of the file. */
    var text: string
    /** The serialiser applied to every record. */
    const encode: Encoder

    ghost predicate Valid()
    {
      NewlineFree(encode)
    }

    /** The lines of the file. */
    ghost function Lines(): seq<string>
      reads this
    {
      SplitLines(text)
    }

    /** A log over the file as found: empty when the file does not exist yet, the lines of an
        earlier run under the same run identifier otherwise. */
    constructor (encode: Encoder, existing: string)
      requires NewlineFree(encode)
      ensures Valid()
      ensures this.encode == encode && text == existing
    {
      this.encode := encode;
      text := existing;
    }

    /** `save_row`: serialise `row` and append it with a newline. When serialisation raises,
        nothing is written and `ok` is false. */
    method SaveRow(row: Row) returns (ok: bool)
      modifies this
      ensures ok == encode(row).Some?
      ensures text == old(text) + (if ok then encode(row).value + "\n" else "")
      ensures ok ==> Complete(text)
      ensures Valid() && old(Complete(text)) ==>
        Complete(text) && Lines() == old(Lines()) + (if ok then [encode(row).value] else [])
    {
      var line := encode(row);
      ok := line.Some?;
      if ok {
        ghost var before := text;
        text := text + line.value + "\n";
        assert Ndjson([line.value]) == line.value + "\n";
        if Valid() && Complete(before) {
          SplitAppend(before, [line.value]);
        }
      }
    }
  }
}
