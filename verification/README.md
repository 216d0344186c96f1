# Constitutional critique pipeline: a Dafny model

This project models the three Kubeflow pipeline components of
`vertex_ai_scripts/pipeline_components.py`. Together they run a red-teaming
data set through a "constitutional AI" loop on Vertex AI:

- `split_csv_to_batches` downloads a CSV of attack prompts from Cloud Storage.
  It cuts the rows into consecutive batches of `batch_size` rows and uploads
  each batch as `batches/<subdir>/batch_<start>_<end>.csv`. It returns one
  descriptor `{start, end, batch_file}` per batch.
- `process_batch` downloads one batch and handles each row's attack vector in
  turn. It sends the vector to an unsafe model. If that answer comes back
  blocked, the critique and the final answer are both a fixed note. Otherwise
  it asks a constitutional model for a critique, then a revision, then a
  sanity rewrite. Each model call is tried up to three times. The rows'
  results are uploaded as `outputs/<subdir>/batch_<start>_<end>_out.csv`.
- `merge_results` downloads the batch outputs in the order given and
  concatenates them. It uploads the merged table.

Each component has its own module. `split_csv_to_batches` is `Splitter`,
`process_batch` is `Generation` plus `Processor`, and `merge_results` is
`Merger`. Beneath them sit:

- `Text`: `strip`, `rstrip`, `partition`, `str`/`int` of integers.
- `Tables`: rows, cells, the attack-vector lookup, result records and
  `pd.concat`.
- `Storage`: `gs://` URIs and the object store.

`Pipeline` holds the lemmas that chain the components: the hand-off from
split to process to merge.

The components work step by step, and the model keeps them as methods:

- `Splitter.SplitCsvToBatches`, `Processor.ProcessRows` and
  `Merger.MergeResults` are the components' loops, as `while` loops with
  invariants.
- `Processor.ProcessRow` is the straight-line body of the row loop. It is the
  imperative mirror of the function `Generation.RunRow`, which the row
  lemmas are about.
- `Processor.ProcessBatch` is the component itself: it parses the bounds,
  reads the batch and hands the rows to `ProcessRows`.
- Each method is proved equal to a specification function:
  `Spans`/`Descriptors`, `RunRows`, `RunRow` and `Fetch`/`Concat`.
- The properties the pipeline relies on are proved about those functions.

The environment enters the model as parameters:

- The bucket contents are a `Store`, a map from (bucket, path) to a table.
- An upload is returned as an `Upload` value instead of being performed.
- The generative model is an `Endpoint` oracle. It gives the outcome of
  attempt `a` of the `k`-th model call of a batch: either a reply (no
  candidates, unreadable text, or an optional text) or a raised exception.

The text of each prompt is modelled as a `Prompt` value, and `Render` builds
the exact string the component sends.

Where the component's code and its surrounding description differ, the model
follows the code:

- A reply whose text is empty or absent is stored as `""`. It is not turned
  into a "blocked" note.
- Any answer that strips to `Response blocked` is indistinguishable from a
  real block. The row is then short-circuited like a blocked one
  (`Generation.SentinelAnswerLooksBlocked`).
- An empty input table yields no batches. The merge of no outputs then fails
  as `pd.concat([])` does (`NoObjectsToConcatenate`).

One exception: `Splitter.SplitCsvToBatches` rejects a batch size that is not
positive before reading anything. As written, the component silently returns
no batches for a negative size. The "## Findings" row records this, and
`Splitter.SpansAsWritten` models the loop as written.

The splitter writes the batches into the bucket of the input CSV, but it
describes them by `bucket_uri`. The processor reads a batch from its
descriptor. So the hand-off works only when the input CSV lies in the bucket
`bucket_uri` names (`Pipeline.DescriptorLocation`). With the input elsewhere,
no descriptor leads to its batch's object
(`Pipeline.ForeignInputMisplacesBatches`). The same happens when `gs://`
occurs in `output_subdir`. The splitter stores the batch under the path as
built, but the processor's `replace("gs://", "")` deletes every occurrence
(`Pipeline.SchemeInSubdirMisplacesBatches`). A subdirectory without `:`, such
as any name made of letters, digits, `-`, `_` and `/`, is always safe
(`Pipeline.ColonFreeSubdirKeepsPath`).

## Model

| member | source | states |
|---|---|---|
| Text.Strip | vertex_ai_scripts/pipeline_components.py:137 | `str.strip()`: the result is a contiguous piece of the input, only whitespace was cut from either side, and the result neither starts nor ends with whitespace |
| Text.StripIdempotent | vertex_ai_scripts/pipeline_components.py:137 | stripping twice is stripping once |
| Text.StripUnchanged | vertex_ai_scripts/pipeline_components.py:145 | a string without surrounding whitespace is returned unchanged |
| Text.RStrip | vertex_ai_scripts/pipeline_components.py:38 | `rstrip('/')` removes exactly the trailing run of `/`: the result is a prefix, ends in no `/`, and only `/` was dropped |
| Text.RStripIdempotent | vertex_ai_scripts/pipeline_components.py:90 | `bucket.rstrip('/')` applied twice equals once |
| Text.RemoveAll | vertex_ai_scripts/pipeline_components.py:23 | `replace("gs://", "")` never lengthens the string |
| Text.RemoveAllAbsent | vertex_ai_scripts/pipeline_components.py:23 | replacing a pattern that does not occur leaves the string unchanged |
| Text.RemoveAllLeading | vertex_ai_scripts/pipeline_components.py:23 | a leading `gs://` is removed and the rest is processed as on its own |
| Text.Partition | vertex_ai_scripts/pipeline_components.py:23 | `partition("/")`: the three parts concatenate back to the input, the head holds no `/`, and the separator is `/` or, when absent, empty with an empty tail |
| Text.PartitionAt | vertex_ai_scripts/pipeline_components.py:96 | partitioning `head + "/" + tail` with `/` not in head gives exactly (head, "/", tail) |
| Text.Decimal | vertex_ai_scripts/pipeline_components.py:47-48 | `str(n)` of a natural number is a non-empty digit string without a leading zero |
| Text.FormatInt | vertex_ai_scripts/pipeline_components.py:47-48 | `str(i)` of an integer: a minus sign for negatives, then `Decimal`; `Text.ParseFormatRoundTrip` proves `ParseInt` inverts it |
| Text.ParseInt | vertex_ai_scripts/pipeline_components.py:88-89 | `int(text)`: surrounding whitespace, an optional sign and ASCII digits, otherwise `ValueError` (`None`); characterised by `Text.ParseFormatRoundTrip` and `Pipeline.DescriptorBounds` |
| Text.DecimalValue | vertex_ai_scripts/pipeline_components.py:88-89 | the digits of `str(n)` read back as `n` |
| Text.ParseFormatRoundTrip | vertex_ai_scripts/pipeline_components.py:88-89 | `int(str(i)) == i` for every integer, negative ones included |
| Text.DecimalInjective | vertex_ai_scripts/pipeline_components.py:37 | distinct numbers have distinct decimal texts |
| Text.DigitsThenUnderscore | vertex_ai_scripts/pipeline_components.py:37 | `<digits>_<rest>` determines its digit part and its rest |
| Text.NumberedNameInjective | vertex_ai_scripts/pipeline_components.py:37 | a name `<prefix><start>_<end><suffix>` determines `start` and `end` |
| Text.AbsentCharAbsentPattern | vertex_ai_scripts/pipeline_components.py:23 | a string lacking one character of a pattern does not contain the pattern |
| Text.RemoveAllKeepsPrefix | vertex_ai_scripts/pipeline_components.py:96 | `replace` leaves a prefix untouched when it lacks the pattern's first character |
| Tables.Truthy | vertex_ai_scripts/pipeline_components.py:145 | Python truthiness of a cell in the `or` chain: a missing value is false, an empty string and `0` are false, NaN is true; used by `Tables.FirstTruthy` and `Tables.AttackVectorIsOrChain` |
| Tables.CellText | vertex_ai_scripts/pipeline_components.py:145 | `str()` of a cell: the text itself, an integer in decimal, NaN as `nan` |
| Tables.Get | vertex_ai_scripts/pipeline_components.py:145 | `row.get(name)` is missing exactly when no column has that name, and otherwise is the value of such a column |
| Tables.GetFirst | vertex_ai_scripts/pipeline_components.py:145 | `Get` returns the first column with that name; after `pd.read_csv` column names are unique, so that is the column `row.get(name)` returns |
| Tables.FirstTruthy | vertex_ai_scripts/pipeline_components.py:145 | an `or` chain picks the first truthy operand, or the last one when none is truthy |
| Tables.AttackVectorCell | vertex_ai_scripts/pipeline_components.py:145 | the cell the `or` chain picks; characterised by `Tables.AttackVectorIsOrChain` and `Tables.AttackVectorPrefersNamedColumn` |
| Tables.AttackVector | vertex_ai_scripts/pipeline_components.py:145 | `str(cell).strip()` of that cell, or none for a row without columns; `Processor.ReadAttackVector` turns the none into `IndexError` |
| Tables.AttackVectorIsOrChain | vertex_ai_scripts/pipeline_components.py:145 | the attack vector is `str(...).strip()` of the first truthy of `row.get("Attack Vector")`, `row.get("attack_vector")`, `row.iloc[0]` |
| Tables.AttackVectorPrefersNamedColumn | vertex_ai_scripts/pipeline_components.py:145 | a truthy `Attack Vector` column wins over every other column |
| Tables.ToRecord | vertex_ai_scripts/pipeline_components.py:214-219 | a result becomes a row with exactly the four output columns, in order, each holding text; which text each holds is `Tables.RecordColumns` |
| Tables.Records | vertex_ai_scripts/pipeline_components.py:226 | the output table has one row per result, in order |
| Tables.RecordColumns | vertex_ai_scripts/pipeline_components.py:214-219 | each column of an output row reads back as the result's text of that name: attack vector, initial answer, critique and final answer |
| Tables.Concat | vertex_ai_scripts/pipeline_components.py:258 | `pd.concat(tables, ignore_index=True)`: the rows of every table, table after table; characterised by `Tables.ConcatLength`, `Tables.ConcatAppend` and `Tables.ConcatPlacesTable` |
| Tables.ConcatLength | vertex_ai_scripts/pipeline_components.py:258 | `pd.concat` has as many rows as its inputs together |
| Tables.ConcatAppend | vertex_ai_scripts/pipeline_components.py:258 | concatenating two lists of tables is concatenating their concatenations |
| Tables.ConcatPlacesTable | vertex_ai_scripts/pipeline_components.py:258 | table `j` appears unchanged in the concatenation, starting after the rows of the tables before it |
| Storage.JoinUri | vertex_ai_scripts/pipeline_components.py:38 | `f"{uri.rstrip('/')}/{path}"` ends with `/` followed by the path |
| Storage.SplitUri | vertex_ai_scripts/pipeline_components.py:23 | the bucket name parsed from a URI never contains `/` |
| Storage.SplitJoinRoundTrip | vertex_ai_scripts/pipeline_components.py:90-96 | parsing a URI built from `gs://<name>` and a path gives back (name, path) when the scheme text does not reappear |
| Storage.SplitJoinBucket | vertex_ai_scripts/pipeline_components.py:90-96 | the same round trip for every valid bucket name and every path without `:` |
| Storage.BucketNameChars | vertex_ai_scripts/pipeline_components.py:23 | a valid bucket name contains neither `/` nor `:` |
| Storage.ColonFreeJoin | vertex_ai_scripts/pipeline_components.py:38 | joining two colon-free texts with `/` gives a colon-free text |
| Storage.SchemeInPathIsRemoved | vertex_ai_scripts/pipeline_components.py:23 | `replace("gs://", "")` also deletes `gs://` inside the path: `gs://b/gs://x` names object `x` |
| Splitter.SplitCsvToBatches | vertex_ai_scripts/pipeline_components.py:11-53 | a non-positive batch size is rejected before any read. A missing input object then fails the download. Otherwise the result is one descriptor per span of `Spans(n, size)` in order, and the uploads are those spans' rows at their batch paths in the input's bucket |
| Splitter.SpansFrom | vertex_ai_scripts/pipeline_components.py:32-34 | every span from `i` on is non-empty and lies within `[i, n)` |
| Splitter.Spans | vertex_ai_scripts/pipeline_components.py:32-34 | the spans of `range(0, n, batch_size)` with `end = min(n, start + batch_size)`; characterised by `Splitter.SpansShape`, `Splitter.SpansOrdered`, `Splitter.RowInExactlyOneBatch` and `Splitter.SpansCount` |
| Splitter.BatchPath | vertex_ai_scripts/pipeline_components.py:37 | `batches/<subdir>/batch_<start>_<end>.csv`; `Splitter.BatchPathInjective` and `Splitter.BatchPathsDistinct` prove distinct batches get distinct paths |
| Splitter.Describe | vertex_ai_scripts/pipeline_components.py:37-50 | the descriptor `{start, end, batch_file}` of one span; `Pipeline.DescriptorBounds` and `Pipeline.DescriptorLocation` prove the processor reads it back |
| Splitter.Stored | vertex_ai_scripts/pipeline_components.py:35-44 | the upload of one span's rows at its batch path in the input's bucket |
| Splitter.Descriptors | vertex_ai_scripts/pipeline_components.py:46-50 | one descriptor per span, in span order |
| Splitter.StoredAll | vertex_ai_scripts/pipeline_components.py:35-44 | one upload per span, in span order |
| Splitter.SplitStep | vertex_ai_scripts/pipeline_components.py:32-50 | one loop iteration appends exactly the next span, its descriptor and its upload |
| Splitter.SpansShape | vertex_ai_scripts/pipeline_components.py:32-34 | spans are contiguous, start at 0, end at `n` and are empty only when the table is. Each has `size` rows except the last, which has 1 to `size` |
| Splitter.SpansOrdered | vertex_ai_scripts/pipeline_components.py:32-34 | spans are ascending and pairwise disjoint |
| Splitter.SpansCover | vertex_ai_scripts/pipeline_components.py:32-35 | every row lies in some span |
| Splitter.RowInExactlyOneBatch | vertex_ai_scripts/pipeline_components.py:32-35 | every row of the input lies in exactly one batch |
| Splitter.SpansFromCount | vertex_ai_scripts/pipeline_components.py:32 | the number of spans bounds the remaining rows from both sides |
| Splitter.SpansCount | vertex_ai_scripts/pipeline_components.py:32-34 | there are `ceil(n / size)` batches |
| Splitter.Slices | vertex_ai_scripts/pipeline_components.py:35 | batch `j` is `df.iloc[start:end]` of span `j` |
| Splitter.BatchesReassemble | vertex_ai_scripts/pipeline_components.py:32-35 | concatenating the batches gives back the input table |
| Splitter.BatchPathInjective | vertex_ai_scripts/pipeline_components.py:37 | a batch path determines its start and end |
| Splitter.BatchPathsDistinct | vertex_ai_scripts/pipeline_components.py:37-44 | no two batches of one run are uploaded to the same path |
| Splitter.SpansAsWritten | vertex_ai_scripts/pipeline_components.py:32 | `range(0, n, batch_size)` as written raises only for size 0 and yields nothing for a negative size |
| Splitter.NegativeBatchSizeDropsRows | vertex_ai_scripts/pipeline_components.py:32 | with `batch_size = -5`, the as-written loop yields no batch for a 12-row table |
| Splitter.TwelveRowsInFives | vertex_ai_scripts/pipeline_components.py:32-34 | twelve rows in batches of five are `[0,5)`, `[5,10)`, `[10,12)` |
| Generation.Interpret | vertex_ai_scripts/pipeline_components.py:130-140 | a reply without candidates, or whose text cannot be read, is `Response blocked`. An answer without text is `""`, and an answer with text is that text stripped (`Text.Strip`) |
| Generation.GenerateFrom | vertex_ai_scripts/pipeline_components.py:129-140 | attempt `a` of a call and, when it raises and attempts remain, the later ones; `Generation.RetryPolicy` characterises it |
| Generation.Generate | vertex_ai_scripts/pipeline_components.py:129-140 | `call_generate` under `stop_after_attempt(3)`, starting at the first attempt; characterised by `Generation.RetryPolicy` |
| Generation.InterpretStrips | vertex_ai_scripts/pipeline_components.py:137 | an answered reply's text is already stripped |
| Generation.SentinelAnswerLooksBlocked | vertex_ai_scripts/pipeline_components.py:134-153 | an answer reading ` Response blocked\n` yields the same text as a real block |
| Generation.RetryPolicy | vertex_ai_scripts/pipeline_components.py:129-140 | a call fails, with `RetryError`, exactly when all three attempts raise. Otherwise it returns the interpretation of the first attempt that replied |
| Generation.Render | vertex_ai_scripts/pipeline_components.py:148-207 | the text of each prompt: the bare attack vector, and the critique, revision and sanity templates filled in; `Generation.CritiqueCarriesInputs`, `Generation.RevisionCarriesInputs` and `Generation.SanityCarriesInput` prove what each contains |
| Generation.OccursAtEnd | vertex_ai_scripts/pipeline_components.py:166-167 | text appended at the end of a prompt occurs in it |
| Generation.OccursExtended | vertex_ai_scripts/pipeline_components.py:166-167 | text in a prompt still occurs after more text is appended |
| Generation.CritiqueCarriesInputs | vertex_ai_scripts/pipeline_components.py:158-172 | the critique prompt contains the attack vector and the initial answer |
| Generation.RevisionCarriesInputs | vertex_ai_scripts/pipeline_components.py:174-195 | the revision prompt contains the attack vector, the initial answer and the critique |
| Generation.SanityCarriesInput | vertex_ai_scripts/pipeline_components.py:197-212 | the sanity prompt contains the revised answer |
| Generation.RunRow | vertex_ai_scripts/pipeline_components.py:147-219 | one row's calls and record; characterised by `Generation.BlockedRowShortCircuits`, `Generation.UnblockedRowMakesFourCalls`, `Generation.RowCallCount` and `Generation.RowFailsOnlyOnRetries` |
| Generation.BlockedRowShortCircuits | vertex_ai_scripts/pipeline_components.py:151-155 | a blocked initial answer makes exactly one call, and critique and final answer are the fixed note |
| Generation.UnblockedRowMakesFourCalls | vertex_ai_scripts/pipeline_components.py:147-212 | an unblocked row makes four calls in order: unsafe model on the bare vector, then critique, revision and sanity on the constitutional model. Each prompt is built from the previous answers, and the stored texts are those answers |
| Generation.RowCallCount | vertex_ai_scripts/pipeline_components.py:151-219 | a row keeps its attack vector and makes 1 call if blocked, else 4. A blocked row carries the note twice |
| Generation.RowFailsOnlyOnRetries | vertex_ai_scripts/pipeline_components.py:129-212 | a row can fail only by exhausting the retries of one of its calls |
| Processor.ReadAttackVector | vertex_ai_scripts/pipeline_components.py:145 | reading the attack vector raises `IndexError` exactly for a row without columns, and otherwise yields the or-chain's value |
| Processor.RunRows | vertex_ai_scripts/pipeline_components.py:142-219 | the row loop over a batch, stopping at the first failure; characterised by `Processor.OneResultPerRow`, `Processor.BatchFailures`, `Processor.FailurePersists` and `Processor.RunRowsStep` |
| Processor.OneResultPerRow | vertex_ai_scripts/pipeline_components.py:142-219 | a completed batch has one result per row, in row order, each with that row's attack vector. The number of calls made is one per blocked row and four per other row |
| Processor.BatchFailures | vertex_ai_scripts/pipeline_components.py:142-219 | a batch fails only with `IndexError` (on some empty row) or `RetryError` |
| Processor.FailurePersists | vertex_ai_scripts/pipeline_components.py:142-219 | once a prefix of the rows fails, the whole batch fails with that error |
| Processor.RunRowsStep | vertex_ai_scripts/pipeline_components.py:142-219 | processing one more row appends its result and calls, or fails with that row's error |
| Processor.OutputPath | vertex_ai_scripts/pipeline_components.py:90 | `outputs/<subdir>/batch_<start>_<end>_out.csv` from the parsed bounds; `Processor.OutputPathInjective` and `Pipeline.OutputLocation` are proved about it |
| Processor.OutputPathInjective | vertex_ai_scripts/pipeline_components.py:90 | an output path determines its start and end |
| Processor.ProcessRow | vertex_ai_scripts/pipeline_components.py:147-219 | the row's imperative flow, the mirror of `Generation.RunRow`, computes exactly `RunRow` |
| Processor.ProcessRows | vertex_ai_scripts/pipeline_components.py:142-219 | the row loop computes exactly `RunRows`, stopping at the first failure |
| Processor.ProcessBatch | vertex_ai_scripts/pipeline_components.py:65-233 | bad `start`/`end` text raises `ValueError`, and a missing batch object fails the download. Otherwise a failed row fails the batch. Else one upload of the rows' records goes to `outputs/<subdir>/batch_<start>_<end>_out.csv`, whose URI is returned |
| Merger.Fetch | vertex_ai_scripts/pipeline_components.py:250-256 | the download loop over the output paths, in order, failing at the first missing object; characterised by `Merger.FetchAll`, `Merger.FetchFirstMissing` and `Merger.MissingPersists` |
| Merger.FetchAll | vertex_ai_scripts/pipeline_components.py:250-256 | the downloads succeed exactly when every path names a stored object, and then yield those objects in order |
| Merger.FetchFirstMissing | vertex_ai_scripts/pipeline_components.py:250-256 | the first missing object is the one reported |
| Merger.MissingPersists | vertex_ai_scripts/pipeline_components.py:250-256 | a failed prefix of downloads fails the whole loop with that error |
| Merger.MergeResults | vertex_ai_scripts/pipeline_components.py:240-264 | a failed download fails the merge, and an empty list fails `pd.concat`. Otherwise one upload of the concatenation, in path order, goes to the final URI |
| Merger.MergedKeepsBatchOrder | vertex_ai_scripts/pipeline_components.py:250-258 | the rows of output `j` appear unchanged in the merged table, after the rows of the outputs before it |
| Pipeline.NumberedNameColonFree | vertex_ai_scripts/pipeline_components.py:37 | a numbered name built from colon-free parts has no colon |
| Pipeline.DescriptorBounds | vertex_ai_scripts/pipeline_components.py:46-50 | the `start`/`end` texts a descriptor hands over parse back to its span's bounds, so the output path names the same span |
| Pipeline.DescriptorLocation | vertex_ai_scripts/pipeline_components.py:23-44 | when `bucket_uri` is `gs://<name>` (trailing `/` allowed, `name` without `/`), the input CSV lies in bucket `name`, and `gs://` does not occur in `name/<batch path>`, a descriptor's `batch_file` URI parses to exactly the object the split uploaded |
| Pipeline.ColonFreeSubdirKeepsPath | vertex_ai_scripts/pipeline_components.py:37 | for a valid bucket name and a subdirectory without `:`, `gs://` never occurs in `name/<batch path>`, so `Pipeline.DescriptorLocation` applies to every span |
| Pipeline.ForeignInputMisplacesBatches | vertex_ai_scripts/pipeline_components.py:23-44 | under the same conditions on `bucket_uri` and the batch path, but with the input CSV in another bucket, a descriptor's `batch_file` URI never parses to the object the split uploaded |
| Pipeline.SchemeInSubdirMisplacesBatches | vertex_ai_scripts/pipeline_components.py:37-38 | with subdirectory `gs://x`, the split stores `batches/gs://x/batch_0_1.csv` but the descriptor parses to `batches/x/batch_0_1.csv`, another object |
| Pipeline.OutputLocation | vertex_ai_scripts/pipeline_components.py:228-231 | the returned output URI parses to exactly the object the batch uploaded |
| Pipeline.AnswersAppend | vertex_ai_scripts/pipeline_components.py:258 | answering two row lists answers their concatenation |
| Pipeline.AnswersConcat | vertex_ai_scripts/pipeline_components.py:258 | answering every batch answers the concatenated batches with the concatenated results |
| Pipeline.RecordsConcat | vertex_ai_scripts/pipeline_components.py:258 | merging the batch outputs equals the records of all results in batch order |
| Pipeline.BatchesAnswered | vertex_ai_scripts/pipeline_components.py:142-219 | every processed batch answers each of its rows by its attack vector |
| Pipeline.EveryRowAnsweredInOrder | vertex_ai_scripts/pipeline_components.py:32-258 | splitting, processing every batch and merging in batch order yields one record per input row, in input order, each carrying that row's attack vector |

## Left out

- Cloud Storage I/O: downloads, uploads and local `/tmp` files are not performed. The store is a map and uploads are returned values.
- CSV writing and `pd.read_csv`: a table is written and read back as the same rows. Quoting, type inference (a numeric cell read back as a number) and the column layout of an empty DataFrame are not modelled.
- Model construction is not modelled: `vertexai.init`, project, region, the model name, the safety settings and the two system instructions (including `constitution_text`). The endpoint oracle stands for a call to each of the two models.
- Tenacity's exponential back-off between attempts is a delay only and is not modelled. The count of three attempts and the re-raise as `RetryError` are modelled.
- The oracle sees the model, the call's index within its batch and the attempt number. Wall-clock or network state affecting an answer beyond these is not modelled.
- Progress `print` lines and the final log messages are not modelled.
- `run_pipeline.py` is not part of this model. That covers the parallel fan-out over descriptors, the collection order of `batch_output_paths` and pipeline compilation. `Pipeline.EveryRowAnsweredInOrder` assumes the outputs are merged in batch order.
- Text.ParseInt: accepts surrounding whitespace, an optional sign and ASCII digits only. The underscores and non-ASCII digits that Python's `int()` also accepts are not modelled.
- Tables.Get: pandas `Series.get` on a duplicated label returns every match. `pd.read_csv` renames duplicate headers (`x`, `x.1`), so a row read from a CSV never has one, and the model takes the first match.
- Tables.CellText: renders an integer cell as its decimal text and a missing value as `nan`. Other float cells and other `str()` formats are not modelled.
- Generation.Interpret: `resp.text` raising for a multi-part or safety-filtered candidate is one `Unreadable` reply. Other exception types than `ValueError` are `Raised` and retried.

## Findings

| source | as written | input that shows it | evidently intended | confidence | as-written member | corrected member |
|---|---|---|---|---|---|---|
| vertex_ai_scripts/pipeline_components.py:32 | `range(0, n, batch_size)` yields nothing for a negative batch size, so the component returns no batches and every row is silently dropped (a zero size raises) | `batch_size = -5` with a 12-row CSV gives `[]` | reject any batch size that is not positive | not executed | Splitter.NegativeBatchSizeDropsRows | Splitter.SplitCsvToBatches |
