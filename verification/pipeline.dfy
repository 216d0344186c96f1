/**
 * How the three components fit together when the orchestration hands each
 * one the previous one's outputs: the processor reads exactly the objects
 * the splitter wrote, and the merged table answers every input row once, in
 * input order.
 */
module Pipeline {
  import opened Wrappers
  import opened Text
  import opened Tables
  import opened Storage
  import opened Splitter
  import opened Generation
  import opened Processor

  /** A numbered object name holds no `:` when its fixed parts hold none. */
  lemma NumberedNameColonFree(prefix: string, s: nat, e: nat, suffix: string)
    requires ':' !in prefix && ':' !in suffix
    ensures ':' !in prefix + Decimal(s) + "_" + Decimal(e) + suffix
  {
    var d1, d2 := Decimal(s), Decimal(e);
    forall i | 0 <= i < |d1| ensures d1[i] != ':' { assert IsDigit(d1[i]); }
    forall i | 0 <= i < |d2| ensures d2[i] != ':' { assert IsDigit(d2[i]); }
  }

  /**
   * A batch descriptor's bounds parse back to the span's bounds, and the
   * processor names its output after the very same digits.
   */
  lemma DescriptorBounds(bucketUri: string, subdir: string, span: Span)
    ensures var d := Describe(span, bucketUri, subdir);
      && ParseInt(d.start) == Some(span.start as int)
      && ParseInt(d.end) == Some(span.end as int)
      && OutputPath(subdir, span.start, span.end) == "outputs/" + subdir + "/batch_" + d.start + "_" + d.end + "_out.csv"
  {
    ParseFormatRoundTrip(span.start);
    ParseFormatRoundTrip(span.end);
    assert FormatInt(span.start) == Decimal(span.start);
    assert FormatInt(span.end) == Decimal(span.end);
  }

  /**
   * A batch descriptor's URI leads to the very object the splitter wrote the
   * span's rows to, when the input CSV lives in the bucket `bucketUri` names
   * and `gs://` does not reappear in the bucket name or the batch path: the
   * splitter writes into the input's bucket under the path as built, but
   * describes the batch by `bucketUri`, and the processor's `replace` deletes
   * every `gs://`.
   */
  lemma DescriptorLocation(table: Table, gcsInputCsv: string, bucketUri: string, name: string, subdir: string, span: Span)
    requires span.start <= span.end <= |table|
    requires RStrip(bucketUri, '/') == Scheme + name && '/' !in name
    requires !Occurs(name + "/" + BatchPath(subdir, span.start, span.end), Scheme)
    requires SplitUri(gcsInputCsv).bucket == name
    ensures SplitUri(Describe(span, bucketUri, subdir).batchFile) == Stored(table, SplitUri(gcsInputCsv).bucket, subdir, span).at
  {
    SplitJoinRoundTrip(bucketUri, name, BatchPath(subdir, span.start, span.end));
  }

  /**
   * With the input CSV in another bucket than `bucketUri`'s, no descriptor
   * leads to the object its rows were written to, so the processor's download
   * of that batch fails.
   */
  lemma ForeignInputMisplacesBatches(table: Table, gcsInputCsv: string, bucketUri: string, name: string, subdir: string, span: Span)
    requires span.start <= span.end <= |table|
    requires RStrip(bucketUri, '/') == Scheme + name && '/' !in name
    requires !Occurs(name + "/" + BatchPath(subdir, span.start, span.end), Scheme)
    requires SplitUri(gcsInputCsv).bucket != name
    ensures SplitUri(Describe(span, bucketUri, subdir).batchFile) != Stored(table, SplitUri(gcsInputCsv).bucket, subdir, span).at
  {
    SplitJoinRoundTrip(bucketUri, name, BatchPath(subdir, span.start, span.end));
  }

  /**
   * For a valid bucket name and a subdirectory without `:`, the condition of
   * `DescriptorLocation` on `gs://` holds for every span.
   */
  lemma ColonFreeSubdirKeepsPath(name: string, subdir: string, span: Span)
    requires IsBucketName(name) && ':' !in subdir
    ensures !Occurs(name + "/" + BatchPath(subdir, span.start, span.end), Scheme)
  {
    BucketNameChars(name);
    NumberedNameColonFree("batches/" + subdir + "/batch_", span.start, span.end, ".csv");
    ColonFreeJoin(name, BatchPath(subdir, span.start, span.end));
    AbsentCharAbsentPattern(name + "/" + BatchPath(subdir, span.start, span.end), Scheme, 2);
  }

  /**
   * A subdirectory holding `gs://` breaks the hand-off: the splitter stores
   * the batch under `batches/gs://x/...`, but the processor's `replace`
   * turns the descriptor into `batches/x/...`, another object.
   */
  lemma SchemeInSubdirMisplacesBatches()
    ensures BatchPath("gs://x", 0, 1) == "batches/" + (Scheme + "x/batch_0_1.csv")
    ensures SplitUri(Describe(Span(0, 1), "gs://b", "gs://x").batchFile) == Location("b", "batches/" + "x/batch_0_1.csv")
    ensures SplitUri(Describe(Span(0, 1), "gs://b", "gs://x").batchFile).path != BatchPath("gs://x", 0, 1)
  {
    SchemeSubdirPath();
    SchemeSubdirUri();
    SchemeSubdirRemoved();
    var mid := "b/batches/";
    assert mid == "b" + ['/'] + "batches/";
    assert mid + "x/batch_0_1.csv" == "b" + ['/'] + ("batches/" + "x/batch_0_1.csv");
    PartitionAt("b", '/', "batches/" + "x/batch_0_1.csv");
  }

  /** The first batch's path under subdirectory `gs://x`. */
  lemma SchemeSubdirPath()
    ensures BatchPath("gs://x", 0, 1) == "batches/" + (Scheme + "x/batch_0_1.csv")
  {
    assert Decimal(0) == "0" && Decimal(1) == "1";
    assert "gs://x" == Scheme + "x";
    assert "x" + "/batch_" + "0" + "_" + "1" + ".csv" == "x/batch_0_1.csv";
  }

  /** The descriptor URI of the first batch, with `gs://` twice in it. */
  lemma SchemeSubdirUri()
    ensures Describe(Span(0, 1), "gs://b", "gs://x").batchFile == Scheme + ("b/batches/" + (Scheme + "x/batch_0_1.csv"))
  {
    SchemeSubdirPath();
    var rest := Scheme + "x/batch_0_1.csv";
    assert RStrip("gs://b", '/') == Scheme + "b";
    assert JoinUri("gs://b", "batches/" + rest) == Scheme + "b" + "/" + ("batches/" + rest);
    assert "b" + "/" + "batches/" == "b/batches/";
  }

  /** `replace("gs://", "")` deletes both occurrences. */
  lemma SchemeSubdirRemoved()
    ensures RemoveAll(Scheme + ("b/batches/" + (Scheme + "x/batch_0_1.csv")), Scheme) == "b/batches/" + "x/batch_0_1.csv"
  {
    var tail := "x/batch_0_1.csv";
    var mid := "b/batches/";
    RemoveAllLeading(Scheme, mid + (Scheme + tail));
    assert 'g' !in mid;
    RemoveAllKeepsPrefix(mid, Scheme + tail, Scheme);
    RemoveAllLeading(Scheme, tail);
    SchemeFreeTail();
  }

  /** The rest of the path holds no `gs://`. */
  lemma SchemeFreeTail()
    ensures RemoveAll("x/batch_0_1.csv", Scheme) == "x/batch_0_1.csv"
  {
    AbsentCharAbsentPattern("x/batch_0_1.csv", Scheme, 0);
    RemoveAllAbsent("x/batch_0_1.csv", Scheme);
  }

  /**
   * The processor writes a batch's results into the pipeline bucket, under
   * the object name it builds from the batch's bounds.
   */
  lemma OutputLocation(bucketUri: string, name: string, subdir: string, s: nat, e: nat)
    requires RStrip(bucketUri, '/') == Scheme + name && IsBucketName(name)
    requires ':' !in subdir
    ensures SplitUri(JoinUri(bucketUri, OutputPath(subdir, s, e))) == Location(name, OutputPath(subdir, s, e))
  {
    assert FormatInt(s) == Decimal(s) && FormatInt(e) == Decimal(e);
    assert OutputPath(subdir, s, e) == "outputs/" + subdir + "/batch_" + Decimal(s) + "_" + Decimal(e) + "_out.csv";
    NumberedNameColonFree("outputs/" + subdir + "/batch_", s, e, "_out.csv");
    SplitJoinBucket(bucketUri, name, OutputPath(subdir, s, e));
  }

  /** The results of several processed batches, one batch after the other. */
  function ResultsOf(traces: seq<BatchTrace>): seq<RowResult>
  {
    if traces == [] then [] else traces[0].results + ResultsOf(traces[1..])
  }

  /** `results` answer `rows`: one result per row, in order, with that row's attack vector. */
  ghost predicate Answers(rows: Table, results: seq<RowResult>)
  {
    |results| == |rows| && forall m :: 0 <= m < |rows| ==> AttackVector(rows[m]) == Some(results[m].attackVector)
  }

  /** Answers to consecutive runs of rows are answers to the whole run. */
  lemma AnswersAppend(rows1: Table, results1: seq<RowResult>, rows2: Table, results2: seq<RowResult>)
    requires Answers(rows1, results1) && Answers(rows2, results2)
    ensures Answers(rows1 + rows2, results1 + results2)
  {
    var rows, results := rows1 + rows2, results1 + results2;
    forall m | 0 <= m < |rows| ensures AttackVector(rows[m]) == Some(results[m].attackVector) {
      if m >= |rows1| {
        assert rows[m] == rows2[m - |rows1|] && results[m] == results2[m - |rows1|];
      }
    }
  }

  /** Batch by batch answers are answers to the concatenated batches. */
  lemma {:induction false} AnswersConcat(batches: seq<Table>, traces: seq<BatchTrace>)
    requires |batches| == |traces|
    requires forall j :: 0 <= j < |batches| ==> Answers(batches[j], traces[j].results)
    ensures Answers(Concat(batches), ResultsOf(traces))
  {
    if batches != [] {
      AnswersConcat(batches[1..], traces[1..]);
      AnswersAppend(batches[0], traces[0].results, Concat(batches[1..]), ResultsOf(traces[1..]));
    }
  }

  /** The result tables of several batches, concatenated, are the records of all their results. */
  lemma {:induction false} RecordsConcat(ts: seq<Table>, traces: seq<BatchTrace>)
    requires |ts| == |traces|
    requires forall j :: 0 <= j < |ts| ==> ts[j] == Records(traces[j].results)
    ensures Concat(ts) == Records(ResultsOf(traces))
  {
    if ts != [] {
      RecordsConcat(ts[1..], traces[1..]);
      var a, b := traces[0].results, ResultsOf(traces[1..]);
      assert Records(a + b) == Records(a) + Records(b);
    }
  }

  /** Every processed batch answers its own rows. */
  lemma BatchesAnswered(batches: seq<Table>, eps: seq<Endpoint>, traces: seq<BatchTrace>)
    requires |eps| == |traces| == |batches|
    requires forall j :: 0 <= j < |traces| ==> RunRows(eps[j], batches[j]) == Ok(traces[j])
    ensures forall j :: 0 <= j < |batches| ==> Answers(batches[j], traces[j].results)
  {
    forall j | 0 <= j < |batches| ensures Answers(batches[j], traces[j].results) {
      OneResultPerRow(eps[j], batches[j], traces[j]);
    }
  }

  /**
   * End to end: when every batch the splitter cut is processed and the
   * merge reads the result objects in the splitter's order, the merged
   * table holds one record per input row, in input order, each carrying
   * that row's attack vector.
   */
  lemma EveryRowAnsweredInOrder(table: Table, size: nat, batches: seq<Table>, eps: seq<Endpoint>,
                                traces: seq<BatchTrace>, merged: seq<Table>)
    requires size > 0
    requires batches == Slices(table, Spans(|table|, size))
    requires |eps| == |traces| == |merged| == |batches|
    requires forall j :: 0 <= j < |batches| ==> RunRows(eps[j], batches[j]) == Ok(traces[j])
    requires forall j :: 0 <= j < |merged| ==> merged[j] == Records(traces[j].results)
    ensures Concat(merged) == Records(ResultsOf(traces))
    ensures Answers(table, ResultsOf(traces))
  {
    BatchesAnswered(batches, eps, traces);
    AnswersConcat(batches, traces);
    BatchesReassemble(table, 0, size);
    assert Spans(|table|, size) == SpansFrom(0, |table|, size);
    assert table[0..] == table;
    RecordsConcat(merged, traces);
  }
}
