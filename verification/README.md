# BandwidthWatcher core in Dafny

BandwidthWatcher is a small Flask service. Probes post bandwidth samples to
it, and a dashboard reads them back as fixed-grid time series. The samples
are timestamp, download, upload and an optional hostname. This project
models the two pieces of `api/app.py` that carry real logic, and proves
properties of them.

- **The downsampler** (`downsample_data`, with `get_interval` and the
  `durations` table). The raw samples of one preset window (minute,
  tenminutes, hour, day, week) become three parallel lists. There is one
  entry per interval-wide bucket from `now - duration` to `now`, and each
  entry is the truncated mean of the samples in its bucket, or `null` when
  the bucket is empty. `now` is the alignment timestamp, or the newest
  sample, floored to the interval.
- **The batch writer** (`batch_write_worker` and the queue put of
  `record_speed`). It is recast as a sequential state machine with a
  queue, a batch and the stored rows. One iteration drains the queue onto
  the batch in FIFO order. A body missing a required field raises there:
  it is dropped and the flush of that iteration is skipped. Otherwise, if
  the batch is non-empty, one bulk insert is attempted. A failed insert keeps the batch for the next
  iteration; a successful one moves the batch into storage.

Files:

- `wrappers.dfy` (`Option`, `Result`)
- `windows.dfy` (module `Windows`: the timerange tables)
- `downsample.dfy` (module `Downsample`)
- `writer.dfy` (module `BatchWriter`)

Modelling choices that follow the code:

- `if align_timestamp:` is a truthiness test, so an alignment of `0` counts
  as absent. `align` is an `Option<int>`, and `Some(0)` behaves like
  `None`.
- `x // interval` with a positive interval is floor division, which is
  Dafny's `/` on `int`. `int(sum / len)` truncates toward zero, so
  negative sums are modelled with `TruncDiv` rather than `/`.
- `data_map` is built with `zip`, which stops at the shortest list, and a
  repeated timestamp keeps its last reading. Each occurrence of a
  timestamp in a bucket looks that last reading up again.
- When the value lists are shorter than the timestamp list, a windowed
  timestamp can be missing from `data_map`. The code then raises
  `KeyError`, modelled as `Failure(MissingSample)`.
- An unknown timerange key raises `KeyError` only when the input is
  non-empty: the empty-input check at app.py:112 comes before the key lookup
  at app.py:116. It is modelled as `Failure(UnknownTimerange)`.

## Model

| member | source | states |
|---|---|---|
| Windows.Key | api/app.py:90-97 | looking a timerange's dictionary key up finds that timerange |
| Windows.FromKey | api/app.py:90-97 | exactly the five dictionary keys are accepted; any other key is a `KeyError` |
| Windows.KeyRoundTrip | api/app.py:90-97 | a key finds a timerange exactly when it is that timerange's key, and a key is rejected exactly when it is no timerange's key |
| Windows.Interval | api/app.py:81-97 | every bucket width is positive |
| Windows.Duration | api/app.py:125-132 | every window length is positive and a whole number of intervals |
| Windows.Points | api/app.py:125-143 | the grid has duration/interval + 1 points, so consecutive points span exactly the duration |
| Windows.PointsTable | api/app.py:125-132 | the five windows give 61, 121, 121, 121 and 169 points |
| Downsample.FloorTo | api/app.py:119-122 | `(x // step) * step` is the largest multiple of step not above x, and it is x itself when x is already a multiple |
| Downsample.FloorToIdempotent | api/app.py:133 | flooring a floored value changes nothing, so re-flooring `now - duration` keeps the grid on multiples of the interval |
| Downsample.TruncDiv | api/app.py:154-155 | `int(a / n)` is the quotient rounded toward zero, for negative sums as well |
| Downsample.Mean | api/app.py:154-155 | the mean r of n values with sum S is S/n rounded toward zero: r*n <= S < r*n + n for S >= 0, and the mirror image for S < 0 |
| Downsample.MeanWithinRange | api/app.py:154-155 | the truncated mean of values in [lo, hi] lies in [lo, hi] |
| Downsample.MeanOfCopies | api/app.py:154-155 | the mean of any positive number of copies of one value is that value |
| Downsample.MeanExamples | api/app.py:154-155 | averaging examples: {10, 20} gives 15, {10, 10, 11} gives 10, and {-3, -4} gives -3 rather than -4 |
| Downsample.Range | api/app.py:143 | `range(lo, hi, step)` is empty exactly when hi <= lo, and its elements lie in [lo, hi) |
| Downsample.RangeClosed | api/app.py:143 | a range over n whole steps has n elements and element k is lo + k*step |
| Downsample.BucketsTile | api/app.py:143-146 | n consecutive one-step buckets cover exactly [lo, lo + n*step) |
| Downsample.MaxOf | api/app.py:122 | `max` returns an element of the list that no element exceeds |
| Downsample.Anchor | api/app.py:119-122 | a truthy alignment is the anchor itself; otherwise the anchor is a sample that no sample exceeds |
| Downsample.Now | api/app.py:118-122 | `now` is a multiple of the interval; with a non-zero alignment its bucket holds the alignment, otherwise it holds the newest sample and no sample lies beyond it |
| Downsample.Grid | api/app.py:133-143 | the bucket starts are Points(tr) values, one interval apart, from now - duration up to now |
| Downsample.GridCovers | api/app.py:133-146 | a timestamp falls in some grid bucket exactly when it lies in [now - duration, now + interval) |
| Downsample.ZipLength | api/app.py:136 | `zip` yields as many triples as the shortest list |
| Downsample.BuildMap | api/app.py:136 | the table's keys are exactly the timestamps among the zipped triples |
| Downsample.BuildMapLastWins | api/app.py:136 | a timestamp's entry is the reading zipped with its last occurrence |
| Downsample.BuildMapProvenance | api/app.py:136 | every entry is the reading zipped with some occurrence of its key |
| Downsample.DataMap | api/app.py:136 | `data_map`'s keys are exactly the timestamps among the first min(len) samples, the ones `zip` reaches |
| Downsample.Window | api/app.py:146-148 | a timestamp is in the window exactly when it is an input timestamp in [lo, hi), and the window is never longer than the input |
| Downsample.WindowMultiplicity | api/app.py:146-148 | each timestamp in [lo, hi) occurs in the window as often as in the input, and no other timestamp occurs in it |
| Downsample.WindowCount | api/app.py:146-155 | the window's length, the `len` divided by, is the number of samples in [lo, hi), repeats included |
| Downsample.Lookup | api/app.py:146-148 | the lookups succeed exactly when every windowed timestamp has an entry, and then each value is that timestamp's entry |
| Downsample.WindowSucceedsIff | api/app.py:146-148 | the window's lookups succeed exactly when every sample in [lo, hi) has a table entry |
| Downsample.WindowTotals | api/app.py:146-156 | the sums of the looked-up download and upload columns are the totals, over the samples in [lo, hi), of their entries' values |
| Downsample.WindowMeans | api/app.py:151-159 | averaging the window's readings gives, per column, total divided by count truncated toward zero, or two nulls for an empty bucket |
| Downsample.Bucket | api/app.py:144-159 | one grid point raises exactly when a sample in [p, p + interval) has no table entry, and the error is then `MissingSample` |
| Downsample.Fill | api/app.py:143-159 | the grid loop succeeds exactly when every bucket does, and output position j is bucket j |
| Downsample.Downsample | api/app.py:99-161 | empty input gives three empty lists; otherwise the only error is a missing sample, and a result has Points(tr) entries per list with timestamps now - duration + k*interval |
| Downsample.DownsampleData | api/app.py:112-116 | empty input gives three empty lists even for an unknown key; otherwise the key error happens exactly when the key is unknown |
| Downsample.DownsampleDataByKey | api/app.py:116-161 | under a timerange's own key the keyed entry point is the downsampler for that timerange |
| Downsample.BucketGap | api/app.py:150-159 | a bucket's two values are null together, exactly when no timestamp falls in it |
| Downsample.BucketAverage | api/app.py:151-159 | a bucket that does not raise holds, per column, the sum of the entries of the samples in [p, p + interval) divided by their number, truncated toward zero, or two nulls when there are none |
| Downsample.OutputIsBucket | api/app.py:143-159 | output position k of a successful result is the bucket of grid point k |
| Downsample.GapFilling | api/app.py:156-159 | every grid point appears; it is null in both columns exactly when no sample falls in its bucket |
| Downsample.BucketMean | api/app.py:143-159 | at every grid point of a result the two values are the column totals of the samples in its bucket divided by their number, truncated toward zero, or two nulls when no sample falls there |
| Downsample.ReadingsFromInput | api/app.py:136-148 | every looked-up reading is the (download, upload) pair zipped with an occurrence of the looked-up timestamp |
| Downsample.BucketWithinRange | api/app.py:150-155 | every non-null output value lies within the range of its input column |
| Downsample.FillSucceedsIff | api/app.py:143-148 | the grid loop succeeds exactly when every timestamp in [now - duration, now + interval) has a table entry, and fails exactly when one does not |
| Downsample.MissingSampleIff | api/app.py:136-148 | the downsampler raises exactly when a timestamp inside the output window is missing from the table |
| Downsample.ParallelListsSucceed | api/app.py:136-148 | value lists at least as long as the timestamps never make the downsampler raise |
| Downsample.AlignmentStable | api/app.py:118-143 | with the same non-zero alignment, any two non-empty sample sets whose downsampling succeeds give the same bucket starts, ending at the floored alignment |
| Downsample.NewestBucketFilled | api/app.py:121-159 | without a non-zero alignment the last bucket contains the newest sample, so it is never null |
| Downsample.OutsideSampleIgnored | api/app.py:118-148 | appending a sample before now - duration, or (with a non-zero alignment) from now + interval on, leaves the whole output unchanged |
| Downsample.BucketOfCopies | api/app.py:146-155 | a bucket holding at least one sample, all with the same timestamp (samples outside the bucket are unconstrained), holds exactly that timestamp's entry |
| Downsample.LastWins | api/app.py:136-155 | without an alignment, when every sample has the same timestamp, all of them contribute the last sample's values, so the newest bucket holds exactly that sample |
| BatchWriter.Enqueue | api/app.py:74-79 | a put appends the body to the queue, and the pending rows grow by exactly that body's row |
| BatchWriter.RowsContains | api/app.py:48-53 | every well-formed body contributes its row to the rows of its sequence |
| BatchWriter.FirstFault | api/app.py:45-56 | the drain stops at the first body that raises: all earlier bodies are well-formed |
| BatchWriter.Drain | api/app.py:45-56 | draining keeps every row in order across batch and remaining queue; it raises exactly when some queued body is malformed; without a raise the queue empties onto the batch; on a raise the rows before the first malformed body are on the batch and the queue is what follows that body; the queue always shrinks |
| BatchWriter.DrainLoop | api/app.py:45-56 | the inner `get_nowait` loop as written computes exactly the drain described above |
| BatchWriter.Flush | api/app.py:58-63 | success moves the batch to storage; failure keeps batch and storage as they were; neither loses a row |
| BatchWriter.Iterate | api/app.py:42-68 | one loop iteration preserves the pending rows; with no malformed body it empties the queue and either stores everything or keeps it all in the batch; a raise stores nothing, moves the rows before the first malformed body onto the batch and leaves the queue holding what follows that body |
| BatchWriter.Step | api/app.py:42-79 | one event adds to the pending rows exactly the row of the body it puts, if any |
| BatchWriter.Run | api/app.py:42-79 | across any interleaving of puts and iterations of the `while True` loop with any storage outcomes, the pending rows are the initial ones followed by the rows of the bodies put |
| BatchWriter.NothingLost | api/app.py:42-79 | from a fresh start, storage, batch and queue together hold exactly the rows of the well-formed bodies put, in order |
| BatchWriter.MalformedZero | api/app.py:45-56 | a queue has no malformed body exactly when every body in it is well-formed |
| BatchWriter.MalformedDrop | api/app.py:45-68 | a raising drain discards the first malformed body, so the queue left behind holds exactly one malformed body fewer |
| BatchWriter.EventualDelivery | api/app.py:42-68 | with no body arriving meanwhile, once the insert has failed at least as many times as there are malformed bodies queued, the next successful insert stores every pending row in order and leaves batch and queue empty |

## Left out

- The Flask routes (`/speed` beyond its queue put, `/data/<timerange>`, `/latest/<timerange>`, static files) are left out. So are the Supabase client, environment variables and `init_db`: they are I/O around the core.
- `get_data` and `get_latest_data` are left out. Their query filters, the `datetime` range computation and the conversion of query parameters are database and HTTP plumbing. The model takes the lists they would pass to `downsample_data`.
- `max_points` / `MAX_POINTS` is left out: it is passed to the downsampler but never read by it.
- The threads, the `threading.Event().wait(...)` pauses and the queue's locking are not modelled. The writer is a sequential state machine whose steps are puts and loop iterations, and concurrency between the two threads is not represented.
- Downsample.Mean: the source divides in floating point before truncating. The model uses exact integer truncation, so float rounding of very large sums is not modelled.
- Field types are not validated. The model's values are integers, while the source would accept any JSON value and fail later in the database.
- BatchWriter.Flush: the storage outcome is a boolean. A call that commits and then raises would store the rows and still keep the batch, so they would be sent twice; that case is not modelled.
- The `KeyError` and storage exception messages and the `print` logging are not modelled. Errors are the two `Error` constructors and the writer's `faulted` flag.
- BatchWriter.Row: the hostname is an abstract `Hostname` type instead of a string. The writer only copies it through and never inspects it.
- A body that is not a JSON object, or that lacks `timestamp`, `download` or `upload`, makes the drain raise. Every such body is one `NotAnObject` or partial `Object` case; the model does not distinguish the Python exception types.
