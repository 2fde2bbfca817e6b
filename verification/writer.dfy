/** The background batch writer, recast as a sequential state machine. The
    ingestion handler appends request bodies to a queue; each iteration of the
    writer loop drains the queue onto the pending batch and then tries one bulk
    insert of the batch. A failed insert keeps the batch, so it is sent again,
    with whatever arrived meanwhile appended, on the next iteration. */
module BatchWriter {
  import opened Wrappers

  /** The optional `hostname` field. The writer copies it through unchanged
      and never inspects it, so it is kept abstract. */
  type Hostname(==)

  /** A request body as received: a JSON object whose fields may be missing,
      or something that is not an object at all. */
  datatype Payload =
    | Object(timestamp: Option<int>, download: Option<int>, upload: Option<int>, hostname: Option<Hostname>)
    | NotAnObject

  /** A row of the storage table. */
  datatype Row = Row(timestamp: int, download: int, upload: int, hostname: Option<Hostname>)

  /** A body the drain loop can turn into a row without raising. */
  predicate WellFormed(p: Payload)
  {
    p.Object? && p.timestamp.Some? && p.download.Some? && p.upload.Some?
  }

  function ToRow(p: Payload): Row
    requires WellFormed(p)
  {
    Row(p.timestamp.value, p.download.value, p.upload.value, p.hostname)
  }

  /** The rows of a body: its row if it is well-formed, nothing otherwise. */
  function RowOf(p: Payload): seq<Row>
  {
    if WellFormed(p) then [ToRow(p)] else []
  }

  /** The rows a sequence of bodies can become, in order. */
  function Rows(ps: seq<Payload>): seq<Row>
  {
    if |ps| == 0 then []
    else RowOf(ps[0]) + Rows(ps[1..])
  }

  lemma {:induction false} RowsAppend(a: seq<Payload>, b: seq<Payload>)
    ensures Rows(a + b) == Rows(a) + Rows(b)
    decreases |a|
  {
    if |a| > 0 {
      assert (a + b)[1..] == a[1..] + b;
      RowsAppend(a[1..], b);
    } else {
      assert a + b == b;
    }
  }

  /** Every well-formed body contributes its row. */
  lemma {:induction false} RowsContains(ps: seq<Payload>, i: int)
    requires 0 <= i < |ps| && WellFormed(ps[i])
    ensures ToRow(ps[i]) in Rows(ps)
    decreases |ps|
  {
    if i > 0 {
      RowsContains(ps[1..], i - 1);
    }
  }

  /** The writer's state: the shared queue, the batch it holds across
      iterations, and the rows the storage table has accepted. */
  datatype Writer = Writer(queue: seq<Payload>, batch: seq<Row>, stored: seq<Row>)

  const Init := Writer([], [], [])

  /** Everything the writer is responsible for, in arrival order: rows already
      stored, rows waiting in the batch, and rows the queue will yield. */
  function Pending(w: Writer): seq<Row>
  {
    w.stored + w.batch + Rows(w.queue)
  }

  /** `data_queue.put`: the ingestion handler appends a body and never fails. */
  function Enqueue(w: Writer, p: Payload): (r: Writer)
    ensures r.queue == w.queue + [p] && r.batch == w.batch && r.stored == w.stored
    ensures Pending(r) == Pending(w) + Rows([p])
  {
    RowsAppend(w.queue, [p]);
    Writer(w.queue + [p], w.batch, w.stored)
  }

  /** The outcome of the inner `get_nowait` loop: the extended batch, what is
      left in the queue, and whether a malformed body raised. */
  datatype Drained = Drained(batch: seq<Row>, rest: seq<Payload>, faulted: bool)

  /** Position of the first malformed body, or the queue length if there is
      none. */
  function FirstFault(queue: seq<Payload>): (k: nat)
    ensures k <= |queue|
    ensures forall i :: 0 <= i < k ==> WellFormed(queue[i])
    ensures k < |queue| ==> !WellFormed(queue[k])
    decreases |queue|
  {
    if |queue| == 0 then 0
    else if !WellFormed(queue[0]) then 0
    else
      var k := FirstFault(queue[1..]);
      assert forall i :: 0 < i < k + 1 ==> queue[i] == queue[1..][i - 1];
      k + 1
  }

  lemma RowsSplit(q: seq<Payload>, i: int)
    requires 0 <= i < |q|
    ensures Rows(q[..i + 1]) == Rows(q[..i]) + RowOf(q[i])
    ensures Rows(q) == Rows(q[..i]) + Rows(q[i..])
    ensures Rows(q[i..]) == RowOf(q[i]) + Rows(q[i + 1..])
  {
    RowsSnoc(q, i);
    RowsAt(q, i);
  }

  lemma RowsSnoc(q: seq<Payload>, i: int)
    requires 0 <= i < |q|
    ensures Rows(q[..i + 1]) == Rows(q[..i]) + RowOf(q[i])
  {
    assert q[..i + 1] == q[..i] + [q[i]];
    RowsAppend(q[..i], [q[i]]);
  }

  lemma RowsAt(q: seq<Payload>, i: int)
    requires 0 <= i < |q|
    ensures Rows(q) == Rows(q[..i]) + Rows(q[i..])
    ensures Rows(q[i..]) == RowOf(q[i]) + Rows(q[i + 1..])
  {
    assert q == q[..i] + q[i..];
    RowsAppend(q[..i], q[i..]);
    assert q[i..][1..] == q[i + 1..];
  }

  /** What draining the queue onto the batch yields: every body before the
      first malformed one joins the batch in order; the malformed one has been
      taken off the queue when it raises, so it is lost, and the rest stays
      queued. */
  function Drain(queue: seq<Payload>, batch: seq<Row>): (d: Drained)
    ensures d.batch + Rows(d.rest) == batch + Rows(queue)
    ensures d.faulted <==> exists i :: 0 <= i < |queue| && !WellFormed(queue[i])
    ensures !d.faulted ==> d.rest == [] && d.batch == batch + Rows(queue)
    ensures d.faulted ==>
      && d.rest == queue[FirstFault(queue) + 1..]
      && d.batch == batch + Rows(queue[..FirstFault(queue)])
    ensures |d.rest| < |queue| || (|queue| == 0 && d.rest == [])
  {
    var k := FirstFault(queue);
    if k == |queue| then
      assert queue[..k] == queue;
      Drained(batch + Rows(queue), [], false)
    else
      assert !WellFormed(queue[k]);
      RowsSkip(queue, k);
      Drained(batch + Rows(queue[..k]), queue[k + 1..], true)
  }

  /** Removing a malformed body removes no row. */
  lemma RowsSkip(q: seq<Payload>, k: int)
    requires 0 <= k < |q| && !WellFormed(q[k])
    ensures Rows(q) == Rows(q[..k]) + Rows(q[k + 1..])
  {
    RowsSplit(q, k);
  }

  /** The inner loop of the writer as written: take bodies off the queue one
      at a time, appending each one's row to the batch, until the queue is
      empty or a body raises. */
  method DrainLoop(queue: seq<Payload>, batch: seq<Row>) returns (newBatch: seq<Row>, rest: seq<Payload>, faulted: bool)
    ensures Drained(newBatch, rest, faulted) == Drain(queue, batch)
  {
    newBatch, rest, faulted := batch, [], false;
    var i := 0;
    while i < |queue|
      invariant 0 <= i <= |queue|
      invariant forall j :: 0 <= j < i ==> WellFormed(queue[j])
      invariant newBatch == batch + Rows(queue[..i])
    {
      RowsSplit(queue, i);
      if !WellFormed(queue[i]) {
        rest, faulted := queue[i + 1..], true;
        return;
      }
      newBatch := newBatch + RowOf(queue[i]);
      i := i + 1;
    }
    assert queue[..i] == queue;
  }

  /** One bulk insert of a non-empty batch; `ok` says whether the storage call
      succeeded. Success moves the batch into storage; failure keeps it. */
  function Flush(w: Writer, ok: bool): (r: Writer)
    ensures Pending(r) == Pending(w)
    ensures r.queue == w.queue
    ensures ok ==> r.batch == [] && r.stored == w.stored + w.batch
    ensures !ok ==> r.batch == w.batch && r.stored == w.stored
  {
    if |w.batch| == 0 then w
    else if ok then Writer(w.queue, [], w.stored + w.batch)
    else w
  }

  /** One iteration of the writer loop: drain, then (unless the drain raised)
      flush. A raised error skips the flush and the loop goes round again. */
  function Iterate(w: Writer, ok: bool): (r: Writer)
    ensures Pending(r) == Pending(w)
    ensures (forall i :: 0 <= i < |w.queue| ==> WellFormed(w.queue[i])) ==>
      && r.queue == []
      && (ok ==> r.batch == [] && r.stored == w.stored + w.batch + Rows(w.queue))
      && (!ok ==> r.batch == w.batch + Rows(w.queue) && r.stored == w.stored)
    ensures (exists i :: 0 <= i < |w.queue| && !WellFormed(w.queue[i])) ==>
      && r.stored == w.stored
      && |r.queue| < |w.queue|
      && r.queue == w.queue[FirstFault(w.queue) + 1..]
      && r.batch == w.batch + Rows(w.queue[..FirstFault(w.queue)])
  {
    var d := Drain(w.queue, w.batch);
    var drained := Writer(d.rest, d.batch, w.stored);
    PendingAssoc(w.stored, d.batch, Rows(d.rest));
    PendingAssoc(w.stored, w.batch, Rows(w.queue));
    if d.faulted then drained else Flush(drained, ok)
  }

  lemma PendingAssoc(a: seq<Row>, b: seq<Row>, c: seq<Row>)
    ensures a + b + c == a + (b + c)
  {
  }

  /** What happens to the writer: a body arrives, or the loop runs once with
      the given storage outcome. */
  datatype Event = Put(payload: Payload) | Tick(ok: bool)

  /** The body an event puts, if any. */
  function PutOf(e: Event): seq<Payload>
  {
    if e.Put? then [e.payload] else []
  }

  /** One event: only a put adds pending rows, and an iteration neither
      loses nor reorders any. */
  function Step(w: Writer, e: Event): (r: Writer)
    ensures Pending(r) == Pending(w) + Rows(PutOf(e))
  {
    match e
    case Put(p) => Enqueue(w, p)
    case Tick(ok) => Iterate(w, ok)
  }

  /** The bodies put, in order. */
  function Puts(es: seq<Event>): seq<Payload>
  {
    if |es| == 0 then [] else PutOf(es[0]) + Puts(es[1..])
  }

  /** The writer after a sequence of events. Across any interleaving of
      arrivals and iterations, with any storage outcomes, it neither loses
      nor reorders a well-formed body: the pending rows are the initial ones
      followed by the rows of the bodies put. */
  function Run(w: Writer, es: seq<Event>): (r: Writer)
    ensures Pending(r) == Pending(w) + Rows(Puts(es))
    decreases |es|
  {
    if |es| == 0 then w
    else
      RowsAppend(PutOf(es[0]), Puts(es[1..]));
      PendingAssoc(Pending(w), Rows(PutOf(es[0])), Rows(Puts(es[1..])));
      Run(Step(w, es[0]), es[1..])
  }

  /** From a fresh start, storage, batch and queue together hold the rows of
      exactly the well-formed bodies put so far, in the order they were put;
      in particular each one is in one of the three. */
  lemma NothingLost(es: seq<Event>)
    ensures var r := Run(Init, es);
      r.stored + r.batch + Rows(r.queue) == Rows(Puts(es))
    ensures var r := Run(Init, es);
      forall i :: 0 <= i < |Puts(es)| && WellFormed(Puts(es)[i]) ==>
        ToRow(Puts(es)[i]) in r.stored + r.batch + Rows(r.queue)
  {
    forall i | 0 <= i < |Puts(es)| && WellFormed(Puts(es)[i])
      ensures ToRow(Puts(es)[i]) in Rows(Puts(es))
    {
      RowsContains(Puts(es), i);
    }
  }

  /** The number of malformed bodies in a queue: each raising drain drops
      exactly one of them. */
  function Malformed(q: seq<Payload>): (n: nat)
    ensures n <= |q|
    decreases |q|
  {
    if |q| == 0 then 0
    else (if WellFormed(q[0]) then 0 else 1) + Malformed(q[1..])
  }

  /** A queue has no malformed body exactly when every body in it is
      well-formed. */
  lemma {:induction false} MalformedZero(q: seq<Payload>)
    ensures Malformed(q) == 0 <==> forall i :: 0 <= i < |q| ==> WellFormed(q[i])
    decreases |q|
  {
    if |q| > 0 {
      MalformedZero(q[1..]);
      assert forall i :: 0 < i < |q| ==> q[i] == q[1..][i - 1];
    }
  }

  /** A raising drain discards the first malformed body, so the queue it
      leaves holds one malformed body fewer. */
  lemma {:induction false} MalformedDrop(q: seq<Payload>)
    requires FirstFault(q) < |q|
    ensures Malformed(q[FirstFault(q) + 1..]) == Malformed(q) - 1
    decreases |q|
  {
    if WellFormed(q[0]) {
      MalformedDrop(q[1..]);
      assert q[FirstFault(q) + 1..] == q[1..][FirstFault(q[1..]) + 1..];
    }
  }

  /** The writer after `n` loop iterations whose insert fails followed by
      one whose insert succeeds, with no body arriving meanwhile: `n` steps
      `Tick(false)`, then one step `Tick(true)`. */
  function Retry(w: Writer, n: nat): Writer
    decreases n
  {
    if n == 0 then Step(w, Tick(true)) else Retry(Step(w, Tick(false)), n - 1)
  }

  /** A failed iteration keeps every pending row and leaves a clean queue
      clean, or drops one malformed body. */
  lemma FailedIteration(w: Writer)
    ensures Pending(Iterate(w, false)) == Pending(w)
    ensures Malformed(Iterate(w, false).queue) ==
      if Malformed(w.queue) == 0 then 0 else Malformed(w.queue) - 1
  {
    MalformedZero(w.queue);
    if FirstFault(w.queue) < |w.queue| {
      MalformedDrop(w.queue);
    }
  }

  /** A successful iteration over a clean queue stores every pending row. */
  lemma CleanSuccess(w: Writer)
    requires Malformed(w.queue) == 0
    ensures var r := Iterate(w, true);
      r.stored == Pending(w) && r.batch == [] && r.queue == []
  {
    MalformedZero(w.queue);
  }

  /** At-least-once delivery: once the storage has failed at least as many
      times as there are malformed bodies queued (each of those iterations
      raises and drops one, or drains a clean queue onto the batch), the next
      successful insert stores every pending row, in order, and leaves the
      batch and queue empty. */
  lemma {:induction false} EventualDelivery(w: Writer, n: nat)
    requires Malformed(w.queue) <= n
    ensures var r := Retry(w, n);
      r.stored == Pending(w) && r.batch == [] && r.queue == []
    decreases n
  {
    if n == 0 {
      CleanSuccess(w);
    } else {
      FailedIteration(w);
      EventualDelivery(Iterate(w, false), n - 1);
    }
  }
}
