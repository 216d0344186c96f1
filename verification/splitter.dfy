/**
 * The batch splitter: partitions the rows of the input table into contiguous
 * `[start, end)` ranges of `batch_size` rows (the last may be shorter), stores
 * each range as its own object and returns one descriptor per range.
 */
module Splitter {
  import opened Wrappers
  import opened Failures
  import opened Text
  import opened Tables
  import opened Storage

  /** The rows `[start, end)` of one batch. */
  datatype Span = Span(start: nat, end: nat)

  /** What the splitter returns for one batch: the bounds as decimal text and the batch's URI. */
  datatype BatchDescriptor = BatchDescriptor(start: string, end: string, batchFile: string)

  function Min(a: nat, b: nat): nat
  {
    if a <= b then a else b
  }

  /** The spans `[i, min(n, i + size))` for `i` in `range(from, n, size)`. */
  function SpansFrom(from: nat, n: nat, size: nat): (spans: seq<Span>)
    requires size > 0
    ensures forall j :: 0 <= j < |spans| ==> from <= spans[j].start < spans[j].end <= n
    decreases n - from
  {
    if from >= n then [] else [Span(from, Min(n, from + size))] + SpansFrom(from + size, n, size)
  }

  /** The spans the splitter cuts a table of `n` rows into. */
  function Spans(n: nat, size: nat): seq<Span>
    requires size > 0
  {
    SpansFrom(0, n, size)
  }

  /** `f"batches/{output_subdir}/batch_{start}_{end}.csv"`. */
  function BatchPath(subdir: string, start: nat, end: nat): string
  {
    "batches/" + subdir + "/batch_" + Decimal(start) + "_" + Decimal(end) + ".csv"
  }

  /** The descriptor of one span: its bounds as `str()` and the URI of its stored rows. */
  function Describe(span: Span, bucketUri: string, subdir: string): BatchDescriptor
  {
    BatchDescriptor(Decimal(span.start), Decimal(span.end), JoinUri(bucketUri, BatchPath(subdir, span.start, span.end)))
  }

  /** The object that holds the rows of one span, in the bucket the input came from. */
  function Stored(table: Table, bucket: string, subdir: string, span: Span): Upload
    requires span.start <= span.end <= |table|
  {
    Upload(Location(bucket, BatchPath(subdir, span.start, span.end)), table[span.start..span.end])
  }

  /** The descriptors of `spans`, in order. */
  function Descriptors(spans: seq<Span>, bucketUri: string, subdir: string): (ds: seq<BatchDescriptor>)
    ensures |ds| == |spans|
    ensures forall j :: 0 <= j < |spans| ==> ds[j] == Describe(spans[j], bucketUri, subdir)
  {
    if spans == [] then []
    else Descriptors(spans[..|spans| - 1], bucketUri, subdir) + [Describe(spans[|spans| - 1], bucketUri, subdir)]
  }

  /** Every span lies within the table. */
  predicate InTable(table: Table, spans: seq<Span>)
  {
    forall j :: 0 <= j < |spans| ==> spans[j].start <= spans[j].end <= |table|
  }

  /** The objects holding the rows of `spans`, in order. */
  function StoredAll(table: Table, bucket: string, subdir: string, spans: seq<Span>): (us: seq<Upload>)
    requires InTable(table, spans)
    ensures |us| == |spans|
    ensures forall j :: 0 <= j < |spans| ==> us[j] == Stored(table, bucket, subdir, spans[j])
  {
    if spans == [] then []
    else StoredAll(table, bucket, subdir, spans[..|spans| - 1]) + [Stored(table, bucket, subdir, spans[|spans| - 1])]
  }

  /**
   * `split_csv_to_batches`: read the table at `gcsInputCsv`, then cut it into
   * consecutive spans of `batchSize` rows. Returns the descriptors and, in
   * order, the objects it stores: each span's rows `df.iloc[start:end]`, at
   * `batches/...` in the input's bucket. A batch size that is not positive
   * is rejected before anything is read; a missing input fails the download.
   */
  method SplitCsvToBatches(gcsInputCsv: string, store: Store, batchSize: int, bucketUri: string, outputSubdir: string)
    returns (r: Result<seq<BatchDescriptor>, Failure>, uploads: seq<Upload>)
    ensures batchSize <= 0 ==> r == Err(InvalidBatchSize(batchSize)) && uploads == []
    ensures var input := SplitUri(gcsInputCsv);
      batchSize > 0 && input !in store ==> r == Err(NotFound(input.bucket, input.path)) && uploads == []
    ensures var input := SplitUri(gcsInputCsv);
      input in store && batchSize > 0 ==>
      var table := store[input];
      var spans := Spans(|table|, batchSize);
      && r == Ok(Descriptors(spans, bucketUri, outputSubdir))
      && InTable(table, spans)
      && uploads == StoredAll(table, input.bucket, outputSubdir, spans)
  {
    if batchSize <= 0 {
      return Err(InvalidBatchSize(batchSize)), [];
    }
    var input := SplitUri(gcsInputCsv);
    if input !in store {
      return Err(NotFound(input.bucket, input.path)), [];
    }
    var table := store[input];
    var bucket := input.bucket;
    var n := |table|;
    var batches: seq<BatchDescriptor> := [];
    uploads := [];
    ghost var done: seq<Span> := [];
    var i := 0;
    while i < n
      invariant done + SpansFrom(i, n, batchSize) == Spans(n, batchSize)
      invariant InTable(table, done)
      invariant batches == Descriptors(done, bucketUri, outputSubdir)
      invariant uploads == StoredAll(table, bucket, outputSubdir, done)
      decreases n - i
    {
      var start := i;
      var end := Min(n, i + batchSize);
      var batchRows := table[start..end];
      var batchPath := BatchPath(outputSubdir, start, end);
      var batchFile := JoinUri(bucketUri, batchPath);
      SplitStep(table, batchSize, i, done, bucket, bucketUri, outputSubdir);
      uploads := uploads + [Upload(Location(bucket, batchPath), batchRows)];
      batches := batches + [BatchDescriptor(Decimal(start), Decimal(end), batchFile)];
      done := done + [Span(start, end)];
      i := i + batchSize;
    }
    assert SpansFrom(i, n, batchSize) == [];
    assert done == Spans(n, batchSize);
    r := Ok(batches);
  }

  /** One turn of the splitter's loop: the next span extends the spans, descriptors and objects done so far. */
  lemma SplitStep(table: Table, size: nat, i: nat, done: seq<Span>, bucket: string, bucketUri: string, subdir: string)
    requires size > 0 && i < |table|
    requires done + SpansFrom(i, |table|, size) == Spans(|table|, size)
    requires InTable(table, done)
    ensures var span := Span(i, Min(|table|, i + size));
      && (done + [span]) + SpansFrom(i + size, |table|, size) == Spans(|table|, size)
      && InTable(table, done + [span])
      && Descriptors(done + [span], bucketUri, subdir) == Descriptors(done, bucketUri, subdir) + [Describe(span, bucketUri, subdir)]
      && StoredAll(table, bucket, subdir, done + [span]) == StoredAll(table, bucket, subdir, done) + [Stored(table, bucket, subdir, span)]
  {
    var n := |table|;
    var span := Span(i, Min(n, i + size));
    assert SpansFrom(i, n, size) == [span] + SpansFrom(i + size, n, size);
    assert (done + [span]) + SpansFrom(i + size, n, size) == done + SpansFrom(i, n, size);
    assert (done + [span])[..|done|] == done;
  }

  /**
   * The shape of the partition: no spans exactly when there are no rows left,
   * the first starts where asked, the last ends at `n`, each ends where the
   * next starts, every span but the last holds `size` rows and the last
   * holds between 1 and `size`.
   */
  lemma {:induction false} SpansShape(from: nat, n: nat, size: nat)
    requires size > 0
    ensures var s := SpansFrom(from, n, size);
      && (s == [] <==> from >= n)
      && (s != [] ==> s[0].start == from && s[|s| - 1].end == n)
      && (forall j :: 0 <= j < |s| - 1 ==> s[j].end == s[j + 1].start && s[j].end - s[j].start == size)
      && (s != [] ==> 0 < s[|s| - 1].end - s[|s| - 1].start <= size)
    decreases n - from
  {
    if from < n {
      SpansShape(from + size, n, size);
    }
  }

  /** Spans come in ascending order and do not overlap. */
  lemma {:induction false} SpansOrdered(from: nat, n: nat, size: nat)
    requires size > 0
    ensures var s := SpansFrom(from, n, size);
      forall j, k :: 0 <= j < k < |s| ==> s[j].end <= s[k].start
    decreases n - from
  {
    if from < n {
      SpansOrdered(from + size, n, size);
      var s := SpansFrom(from, n, size);
      assert forall k :: 1 <= k < |s| ==> s[k] == SpansFrom(from + size, n, size)[k - 1];
    }
  }

  /** Every row from `from` on lies in some span: the one at index `j`. */
  lemma {:induction false} SpansCover(from: nat, n: nat, size: nat, row: nat) returns (j: nat)
    requires size > 0 && from <= row < n
    ensures var s := SpansFrom(from, n, size);
      j < |s| && s[j].start <= row < s[j].end
    decreases n - from
  {
    var s := SpansFrom(from, n, size);
    if row >= from + size {
      var rest := SpansFrom(from + size, n, size);
      assert s == [Span(from, Min(n, from + size))] + rest;
      var k := SpansCover(from + size, n, size, row);
      j := k + 1;
      assert s[j] == rest[k];
    } else {
      j := 0;
    }
  }

  /** Every row of the table lies in exactly one batch. */
  lemma RowInExactlyOneBatch(n: nat, size: nat, row: nat)
    requires size > 0 && row < n
    ensures var s := Spans(n, size);
      && (exists j :: 0 <= j < |s| && s[j].start <= row < s[j].end)
      && (forall j, k :: 0 <= j < |s| && 0 <= k < |s| && s[j].start <= row < s[j].end && s[k].start <= row < s[k].end ==> j == k)
  {
    var s := Spans(n, size);
    assert s == SpansFrom(0, n, size);
    var j := SpansCover(0, n, size, row);
    assert s[j].start <= row < s[j].end;
    SpansOrdered(0, n, size);
  }

  /** `q` is the quotient of `x` by `d` when `x` lies between `q * d` and the next multiple. */
  lemma QuotientBetween(x: int, d: int, q: int)
    requires d > 0 && q * d <= x < q * d + d
    ensures x / d == q
  {
    var r := x / d;
    assert r * d <= x < r * d + d;
    MulMonotone(r + 1, q, d);
    MulMonotone(q + 1, r, d);
  }

  lemma MulMonotone(a: int, b: int, d: nat)
    ensures a <= b ==> a * d <= b * d
  {
    if a <= b {
      assert b * d == a * d + (b - a) * d;
    }
  }

  /** `|SpansFrom(from, n, size)|` is `ceil((n - from) / size)`. */
  lemma {:induction false} SpansFromCount(from: nat, n: nat, size: nat)
    requires size > 0 && from <= n
    ensures var c := |SpansFrom(from, n, size)|;
      (c - 1) * size < n - from <= c * size || (c == 0 && from == n)
    decreases n - from
  {
    if from < n && from + size < n {
      SpansFromCount(from + size, n, size);
    }
  }

  /** There are `ceil(n / size)` batches, none for an empty table. */
  lemma SpansCount(n: nat, size: nat)
    requires size > 0
    ensures |Spans(n, size)| == (n + size - 1) / size
  {
    var c := |Spans(n, size)|;
    SpansFromCount(0, n, size);
    QuotientBetween(n + size - 1, size, c);
  }

  /** The rows of each span, in span order. */
  function Slices(table: Table, spans: seq<Span>): (ts: seq<Table>)
    requires InTable(table, spans)
    ensures |ts| == |spans|
    ensures forall j :: 0 <= j < |spans| ==> ts[j] == table[spans[j].start..spans[j].end]
  {
    seq(|spans|, j requires 0 <= j < |spans| => table[spans[j].start..spans[j].end])
  }

  /** Putting the batches back together in order gives the input table back: no row lost, duplicated or moved. */
  lemma {:induction false} BatchesReassemble(table: Table, from: nat, size: nat)
    requires size > 0 && from <= |table|
    ensures Concat(Slices(table, SpansFrom(from, |table|, size))) == table[from..]
    decreases |table| - from
  {
    var s := SpansFrom(from, |table|, size);
    if from < |table| {
      var rest := SpansFrom(from + size, |table|, size);
      var end := Min(|table|, from + size);
      assert Slices(table, s)[1..] == Slices(table, rest);
      if from + size <= |table| {
        BatchesReassemble(table, from + size, size);
      } else {
        assert rest == [];
      }
      assert table[from..] == table[from..end] + table[end..];
    }
  }

  /** Different spans are stored under different names, so no object is written twice. */
  lemma BatchPathInjective(subdir: string, s1: nat, e1: nat, s2: nat, e2: nat)
    requires BatchPath(subdir, s1, e1) == BatchPath(subdir, s2, e2)
    ensures s1 == s2 && e1 == e2
  {
    NumberedNameInjective("batches/" + subdir + "/batch_", ".csv", s1, e1, s2, e2);
  }

  /** The paths of the batches of one run are pairwise distinct. */
  lemma BatchPathsDistinct(n: nat, size: nat, subdir: string)
    requires size > 0
    ensures var s := Spans(n, size);
      forall j, k :: 0 <= j < k < |s| ==>
        BatchPath(subdir, s[j].start, s[j].end) != BatchPath(subdir, s[k].start, s[k].end)
  {
    var s := Spans(n, size);
    assert s == SpansFrom(0, n, size);
    SpansOrdered(0, n, size);
    forall j, k | 0 <= j < k < |s|
      ensures BatchPath(subdir, s[j].start, s[j].end) != BatchPath(subdir, s[k].start, s[k].end)
    {
      if BatchPath(subdir, s[j].start, s[j].end) == BatchPath(subdir, s[k].start, s[k].end) {
        BatchPathInjective(subdir, s[j].start, s[j].end, s[k].start, s[k].end);
      }
    }
  }

  /**
   * The spans the component's loop `for i in range(0, n, batch_size)` yields, as
   * written: a zero batch size raises `ValueError`, a negative one yields no
   * span at all.
   */
  function SpansAsWritten(n: nat, batchSize: int): (r: Result<seq<Span>, Failure>)
    ensures batchSize == 0 <==> r.Err?
    ensures batchSize < 0 ==> r == Ok([])
  {
    if batchSize == 0 then Err(ValueError)
    else if batchSize < 0 then Ok([])
    else Ok(Spans(n, batchSize))
  }

  /** A negative batch size makes the component return no batches for a 12-row table: every row is dropped. */
  lemma NegativeBatchSizeDropsRows()
    ensures SpansAsWritten(12, -5) == Ok([])
  {
  }

  /** The example of twelve rows in batches of five: `[0,5)`, `[5,10)`, `[10,12)`. */
  lemma TwelveRowsInFives()
    ensures Spans(12, 5) == [Span(0, 5), Span(5, 10), Span(10, 12)]
  {
    assert SpansFrom(10, 12, 5) == [Span(10, 12)];
    assert SpansFrom(5, 12, 5) == [Span(5, 10), Span(10, 12)];
  }
}
