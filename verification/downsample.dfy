/** The fixed-grid downsampler behind the dashboard series: raw samples are
    averaged into wall-clock-aligned buckets, one per unit interval of the
    window, with explicit gaps where a bucket holds no sample. */
module Downsample {
  import opened Wrappers
  import opened Windows

  /** The download/upload pair stored per timestamp in the lookup table. */
  datatype Reading = Reading(download: int, upload: int)

  /** The three parallel output lists; `None` is a JSON `null`. */
  datatype Series = Series(timestamps: seq<int>, downloads: seq<Option<int>>, uploads: seq<Option<int>>)

  /** The bucket values computed for a run of grid points. */
  datatype Columns = Columns(downloads: seq<Option<int>>, uploads: seq<Option<int>>)

  /** The `KeyError`s the downsampler can raise: an unknown timerange key, or a
      timestamp in the window that has no entry in the lookup table. */
  datatype Error = UnknownTimerange | MissingSample

  // ---------------------------------------------------------------------
  // Integer arithmetic
  // ---------------------------------------------------------------------

  lemma MulMono(x: int, y: int, s: int)
    requires x <= y && s > 0
    ensures x * s <= y * s
  {
    assert y * s - x * s == (y - x) * s;
  }

  /** Euclidean division is pinned down by the bracket its dividend falls in. */
  lemma DivUnique(a: int, b: int, s: int)
    requires s > 0 && b * s <= a < b * s + s
    ensures a / s == b && a % s == a - b * s
  {
    var q := a / s;
    assert a == s * q + a % s;
    if q > b {
      MulMono(b + 1, q, s);
      assert false;
    }
    if q < b {
      MulMono(q + 1, b, s);
      assert false;
    }
  }

  /** Python's `(x // step) * step` for a positive step: the largest multiple
      of `step` not above `x`. */
  function FloorTo(x: int, step: int): (r: int)
    requires step > 0
    ensures r <= x < r + step
    ensures r % step == 0
    ensures x % step == 0 ==> r == x
  {
    var q := x / step;
    DivUnique(q * step, q, step);
    q * step
  }

  /** Flooring an already floored value changes nothing. */
  lemma FloorToIdempotent(x: int, step: int)
    requires step > 0
    ensures FloorTo(FloorTo(x, step), step) == FloorTo(x, step)
  {
  }

  lemma DivBracket(a: int, n: int)
    requires a >= 0 && n > 0
    ensures a / n >= 0 && (a / n) * n <= a < (a / n) * n + n
  {
    assert a == n * (a / n) + a % n;
  }

  /** Python's `int(a / n)` for a positive count: the quotient truncated toward
      zero (not floored) for a negative dividend. */
  function TruncDiv(a: int, n: int): (r: int)
    requires n > 0
    ensures a >= 0 ==> 0 <= r && r * n <= a < r * n + n
    ensures a < 0 ==> r <= 0 && (-r) * n <= -a < (-r) * n + n
  {
    if a >= 0 then
      DivBracket(a, n);
      a / n
    else
      DivBracket(-a, n);
      -((-a) / n)
  }

  function Sum(xs: seq<int>): int
  {
    if |xs| == 0 then 0 else xs[0] + Sum(xs[1..])
  }

  /** `int(sum(xs) / len(xs))`: the quotient of the sum by the count,
      rounded toward zero. */
  function Mean(xs: seq<int>): (r: int)
    requires |xs| > 0
    ensures Sum(xs) >= 0 ==> 0 <= r && r * |xs| <= Sum(xs) < r * |xs| + |xs|
    ensures Sum(xs) < 0 ==> r <= 0 && (-r) * |xs| <= -Sum(xs) < (-r) * |xs| + |xs|
  {
    TruncDiv(Sum(xs), |xs|)
  }

  lemma {:induction false} SumBounds(xs: seq<int>, lo: int, hi: int)
    requires forall k :: 0 <= k < |xs| ==> lo <= xs[k] <= hi
    ensures |xs| * lo <= Sum(xs) <= |xs| * hi
  {
    if |xs| > 0 {
      SumBounds(xs[1..], lo, hi);
      assert |xs| * lo == (|xs| - 1) * lo + lo;
      assert |xs| * hi == (|xs| - 1) * hi + hi;
    }
  }

  /** The quotient of a sum bracketed by `n * lo` and `n * hi`, truncated
      toward zero, stays within `[lo, hi]`. */
  lemma TruncDivWithin(a: int, n: int, lo: int, hi: int)
    requires n > 0 && n * lo <= a <= n * hi
    ensures lo <= TruncDiv(a, n) <= hi
  {
    var r := TruncDiv(a, n);
    if a >= 0 {
      TruncDivWithinNonneg(a, n, lo, hi);
    } else {
      assert (-hi) * n <= -a <= (-lo) * n;
      TruncDivWithinNonneg(-a, n, -hi, -lo);
    }
  }

  lemma TruncDivWithinNonneg(a: int, n: int, lo: int, hi: int)
    requires n > 0 && a >= 0 && lo * n <= a <= hi * n
    ensures lo <= a / n <= hi
  {
    var q := a / n;
    DivBracket(a, n);
    if q > hi {
      MulMono(hi + 1, q, n);
      assert false;
    }
    if q < lo {
      MulMono(q + 1, lo, n);
      assert false;
    }
  }

  /** A truncated mean never leaves the range of the values it averages. */
  lemma MeanWithinRange(xs: seq<int>, lo: int, hi: int)
    requires |xs| > 0
    requires forall k :: 0 <= k < |xs| ==> lo <= xs[k] <= hi
    ensures lo <= Mean(xs) <= hi
  {
    SumBounds(xs, lo, hi);
    TruncDivWithin(Sum(xs), |xs|, lo, hi);
  }

  lemma {:induction false} SumOfCopies(x: int, n: nat)
    ensures Sum(seq(n, _ => x)) == n * x
    decreases n
  {
    if n > 0 {
      assert seq(n, _ => x)[1..] == seq(n - 1, _ => x);
      SumOfCopies(x, n - 1);
    }
  }

  /** The truncated mean of any positive number of copies of a value is that
      value. */
  lemma MeanOfCopies(x: int, n: nat)
    requires n > 0
    ensures Mean(seq(n, _ => x)) == x
  {
    SumOfCopies(x, n);
    if x >= 0 {
      MulMono(0, x, n);
      DivUnique(x * n, x, n);
    } else {
      MulMono(0, -x, n);
      DivUnique((-x) * n, -x, n);
    }
  }

  /** The averaging examples: {10, 20} gives 15, {10, 10, 11} truncates to 10,
      and a negative mean truncates toward zero. */
  lemma MeanExamples()
    ensures Mean([10, 20]) == 15
    ensures Mean([10, 10, 11]) == 10
    ensures Mean([-3, -4]) == -3
  {
  }

  // ---------------------------------------------------------------------
  // The bucket grid
  // ---------------------------------------------------------------------

  /** Python's `range(lo, hi, step)` for a positive step. */
  function Range(lo: int, hi: int, step: int): (r: seq<int>)
    requires step > 0
    ensures |r| == 0 <==> hi <= lo
    ensures forall k :: 0 <= k < |r| ==> lo <= r[k] < hi
    decreases hi - lo
  {
    if hi <= lo then [] else [lo] + Range(lo + step, hi, step)
  }

  /** A range over a whole number of steps is the arithmetic progression. */
  lemma {:induction false} RangeClosed(lo: int, n: nat, step: int)
    requires step > 0
    ensures |Range(lo, lo + n * step, step)| == n
    ensures forall k :: 0 <= k < n ==> Range(lo, lo + n * step, step)[k] == lo + k * step
    decreases n
  {
    var r := Range(lo, lo + n * step, step);
    if n > 0 {
      MulMono(1, n, step);
      assert lo + n * step == (lo + step) + (n - 1) * step;
      RangeClosed(lo + step, n - 1, step);
      var rest := Range(lo + step, lo + n * step, step);
      assert r == [lo] + rest;
      forall k | 0 < k < n
        ensures r[k] == lo + k * step
      {
        assert r[k] == rest[k - 1] == lo + step + (k - 1) * step;
      }
    }
  }

  /** Consecutive half-open buckets of one step each tile the interval they
      span: a point lies in one of the first `n` buckets exactly when it lies
      in `[lo, lo + n * step)`. */
  lemma {:induction false} BucketsTile(lo: int, n: nat, step: int, t: int)
    requires step > 0
    ensures (exists k :: 0 <= k < n && lo + k * step <= t < lo + k * step + step)
        <==> lo <= t < lo + n * step
    decreases n
  {
    if n > 0 {
      BucketsTile(lo + step, n - 1, step, t);
      assert lo + n * step == (lo + step) + (n - 1) * step;
      if exists k :: 0 <= k < n && lo + k * step <= t < lo + k * step + step {
        var k :| 0 <= k < n && lo + k * step <= t < lo + k * step + step;
        if k > 0 {
          assert lo + k * step == (lo + step) + (k - 1) * step;
        }
      }
      if lo + step <= t < lo + n * step {
        var k :| 0 <= k < n - 1 && (lo + step) + k * step <= t < (lo + step) + k * step + step;
        assert lo + (k + 1) * step == (lo + step) + k * step;
      }
      if lo <= t < lo + step {
        assert lo + 0 * step <= t < lo + 0 * step + step;
      }
    }
  }

  // ---------------------------------------------------------------------
  // Anchoring the grid
  // ---------------------------------------------------------------------

  /** The largest timestamp (Python's `max`). */
  function MaxOf(s: seq<int>): (r: int)
    requires |s| > 0
    ensures r in s
    ensures forall i :: 0 <= i < |s| ==> s[i] <= r
  {
    if |s| == 1 then s[0]
    else
      var rest := MaxOf(s[1..]);
      if s[0] >= rest then s[0] else rest
  }

  /** `align_timestamp` when it is truthy (present and non-zero), otherwise the
      latest sample's timestamp. */
  function Anchor(ts: seq<int>, align: Option<int>): (r: int)
    requires |ts| > 0
    ensures align.Some? && align.value != 0 ==> r == align.value
    ensures !(align.Some? && align.value != 0) ==> r in ts && forall i :: 0 <= i < |ts| ==> ts[i] <= r
  {
    if align.Some? && align.value != 0 then align.value else MaxOf(ts)
  }

  /** The start of the grid's last bucket: the anchor floored to the interval.
      With a non-zero alignment it is the alignment's bucket; otherwise it is
      the bucket that holds the latest sample. */
  function Now(ts: seq<int>, tr: Timerange, align: Option<int>): (r: int)
    requires |ts| > 0
    ensures r % Interval(tr) == 0
    ensures align.Some? && align.value != 0 ==> r <= align.value < r + Interval(tr)
    ensures !(align.Some? && align.value != 0) ==>
      (forall i :: 0 <= i < |ts| ==> ts[i] < r + Interval(tr)) &&
      (exists i :: 0 <= i < |ts| && r <= ts[i])
  {
    FloorTo(Anchor(ts, align), Interval(tr))
  }

  /** The bucket starts `start, start + interval, ..., now`: exactly
      `Points(tr)` of them, one interval apart, ending at `now`. */
  function Grid(now: int, tr: Timerange): (r: seq<int>)
    requires now % Interval(tr) == 0
    ensures |r| == Points(tr)
    ensures forall k :: 0 <= k < |r| ==> r[k] == now - Duration(tr) + k * Interval(tr)
    ensures r[|r| - 1] == now
  {
    var step, duration := Interval(tr), Duration(tr);
    assert duration == (Points(tr) - 1) * step;
    var start := FloorTo(now - duration, step);
    assert (now - duration) % step == 0 by {
      DivUnique(now - duration, now / step - (Points(tr) - 1), step);
    }
    assert now + step == start + Points(tr) * step;
    RangeClosed(start, Points(tr), step);
    Range(start, now + step, step)
  }

  /** A timestamp falls in some bucket of the grid exactly when it lies in
      `[now - duration, now + interval)`. */
  lemma GridCovers(now: int, tr: Timerange, t: int)
    requires now % Interval(tr) == 0
    ensures (exists k :: 0 <= k < |Grid(now, tr)| && Grid(now, tr)[k] <= t < Grid(now, tr)[k] + Interval(tr))
        <==> now - Duration(tr) <= t < now + Interval(tr)
  {
    var g, step := Grid(now, tr), Interval(tr);
    if exists k :: 0 <= k < |g| && g[k] <= t < g[k] + step {
      var k :| 0 <= k < |g| && g[k] <= t < g[k] + step;
      GridSpan(now, tr, t);
    }
    if now - Duration(tr) <= t < now + step {
      GridSpan(now, tr, t);
      var k :| 0 <= k < Points(tr) && now - Duration(tr) + k * step <= t < now - Duration(tr) + k * step + step;
      assert g[k] <= t < g[k] + step;
    }
  }

  /** The buckets `[lo + k*interval, lo + (k+1)*interval)` for the grid's
      points together cover exactly the output window. */
  lemma GridSpan(now: int, tr: Timerange, t: int)
    ensures (exists k :: 0 <= k < Points(tr) &&
               now - Duration(tr) + k * Interval(tr) <= t < now - Duration(tr) + k * Interval(tr) + Interval(tr))
        <==> now - Duration(tr) <= t < now + Interval(tr)
  {
    var lo, step, n := now - Duration(tr), Interval(tr), Points(tr);
    BucketsTile(lo, n, step, t);
    assert n * step == (n - 1) * step + step;
  }

  // ---------------------------------------------------------------------
  // The timestamp lookup table and the buckets
  // ---------------------------------------------------------------------

  /** How many triples `zip` yields: the length of the shortest list. */
  function ZipLength(ts: seq<int>, dl: seq<int>, ul: seq<int>): (n: nat)
    ensures n <= |ts| && n <= |dl| && n <= |ul|
    ensures n == |ts| || n == |dl| || n == |ul|
  {
    if |ts| <= |dl| && |ts| <= |ul| then |ts| else if |dl| <= |ul| then |dl| else |ul|
  }

  /** The dictionary built from the first `n` zipped triples: its keys are the
      timestamps among them. */
  function BuildMap(ts: seq<int>, dl: seq<int>, ul: seq<int>, n: nat): (m: map<int, Reading>)
    requires n <= |ts| && n <= |dl| && n <= |ul|
    ensures forall t :: t in m <==> exists i :: 0 <= i < n && ts[i] == t
    decreases n
  {
    if n == 0 then map[]
    else BuildMap(ts, dl, ul, n - 1)[ts[n - 1] := Reading(dl[n - 1], ul[n - 1])]
  }

  /** A timestamp's entry is the reading zipped with its last occurrence. */
  lemma {:induction false} BuildMapLastWins(ts: seq<int>, dl: seq<int>, ul: seq<int>, n: nat, i: int)
    requires n <= |ts| && n <= |dl| && n <= |ul|
    requires 0 <= i < n
    requires forall j :: i < j < n ==> ts[j] != ts[i]
    ensures ts[i] in BuildMap(ts, dl, ul, n)
    ensures BuildMap(ts, dl, ul, n)[ts[i]] == Reading(dl[i], ul[i])
    decreases n
  {
    if i < n - 1 {
      BuildMapLastWins(ts, dl, ul, n - 1, i);
    }
  }

  /** Every entry is the reading zipped with some occurrence of its key. */
  lemma {:induction false} BuildMapProvenance(ts: seq<int>, dl: seq<int>, ul: seq<int>, n: nat, t: int)
    requires n <= |ts| && n <= |dl| && n <= |ul|
    requires t in BuildMap(ts, dl, ul, n)
    ensures exists i :: 0 <= i < n && ts[i] == t && BuildMap(ts, dl, ul, n)[t] == Reading(dl[i], ul[i])
    decreases n
  {
    if ts[n - 1] == t {
      assert ts[n - 1] == t && BuildMap(ts, dl, ul, n)[t] == Reading(dl[n - 1], ul[n - 1]);
    } else {
      BuildMapProvenance(ts, dl, ul, n - 1, t);
      var i :| 0 <= i < n - 1 && ts[i] == t && BuildMap(ts, dl, ul, n - 1)[t] == Reading(dl[i], ul[i]);
      assert BuildMap(ts, dl, ul, n)[t] == Reading(dl[i], ul[i]);
    }
  }

  /** Values past the first `n` triples play no part in the first `n` entries. */
  lemma {:induction false} BuildMapAppend(ts: seq<int>, dl: seq<int>, ul: seq<int>, t: int, d: int, u: int, n: nat)
    requires n <= |ts| && n <= |dl| && n <= |ul|
    ensures BuildMap(ts + [t], dl + [d], ul + [u], n) == BuildMap(ts, dl, ul, n)
    decreases n
  {
    if n > 0 {
      BuildMapAppend(ts, dl, ul, t, d, u, n - 1);
      assert (ts + [t])[n - 1] == ts[n - 1];
      assert (dl + [d])[n - 1] == dl[n - 1];
      assert (ul + [u])[n - 1] == ul[n - 1];
    }
  }

  /** `data_map`: timestamp to the last (download, upload) zipped with it. */
  function DataMap(ts: seq<int>, dl: seq<int>, ul: seq<int>): (m: map<int, Reading>)
    ensures forall t :: t in m <==> t in ts[..ZipLength(ts, dl, ul)]
  {
    BuildMap(ts, dl, ul, ZipLength(ts, dl, ul))
  }

  /** How many samples fall in `[lo, hi)`, each repeat of a timestamp
      counted again. */
  function CountIn(ts: seq<int>, lo: int, hi: int): (n: nat)
    ensures n <= |ts|
    ensures n == 0 <==> forall i :: 0 <= i < |ts| ==> !(lo <= ts[i] < hi)
  {
    if |ts| == 0 then 0
    else
      var rest := CountIn(ts[1..], lo, hi);
      assert forall i :: 1 <= i < |ts| ==> ts[i] == ts[1..][i - 1];
      (if lo <= ts[0] < hi then 1 else 0) + rest
  }

  /** The reading field a bucket total is taken over. */
  datatype Field = Download | Upload

  function Pick(r: Reading, c: Field): int
  {
    match c
    case Download => r.download
    case Upload => r.upload
  }

  /** The sum, over every sample in `[lo, hi)` (repeats included), of the
      table's value for that sample's timestamp in column `c`. */
  function Total(ts: seq<int>, m: map<int, Reading>, lo: int, hi: int, c: Field): int
  {
    if |ts| == 0 then 0
    else
      (if lo <= ts[0] < hi && ts[0] in m then Pick(m[ts[0]], c) else 0) + Total(ts[1..], m, lo, hi, c)
  }

  /** What the bucket `[p, p + step)` holds: two nulls when no sample falls
      in it, otherwise for each column the sum of the table's values of its
      samples divided by their number, truncated toward zero. */
  predicate BucketMeans(ts: seq<int>, m: map<int, Reading>, p: int, step: int, d: Option<int>, u: Option<int>)
  {
    var n := CountIn(ts, p, p + step);
    if n == 0 then d.None? && u.None?
    else
      && d == Some(TruncDiv(Total(ts, m, p, p + step, Download), n))
      && u == Some(TruncDiv(Total(ts, m, p, p + step, Upload), n))
  }

  /** The timestamps in `[lo, hi)`, in input order, duplicates kept. */
  function Window(ts: seq<int>, lo: int, hi: int): (w: seq<int>)
    ensures forall t :: t in w <==> t in ts && lo <= t < hi
    ensures |w| <= |ts|
  {
    if |ts| == 0 then []
    else (if lo <= ts[0] < hi then [ts[0]] else []) + Window(ts[1..], lo, hi)
  }

  /** The window keeps every sample in `[lo, hi)` as many times as it occurs,
      and nothing else. */
  lemma {:induction false} WindowMultiplicity(ts: seq<int>, lo: int, hi: int)
    ensures forall t :: multiset(Window(ts, lo, hi))[t] == if lo <= t < hi then multiset(ts)[t] else 0
    decreases |ts|
  {
    if |ts| > 0 {
      WindowMultiplicity(ts[1..], lo, hi);
      assert ts == [ts[0]] + ts[1..];
    }
  }

  /** The window's length is the bucket's sample count. */
  lemma {:induction false} WindowCount(ts: seq<int>, lo: int, hi: int)
    ensures |Window(ts, lo, hi)| == CountIn(ts, lo, hi)
    decreases |ts|
  {
    if |ts| > 0 {
      WindowCount(ts[1..], lo, hi);
    }
  }

  /** Looks every timestamp of a window up in the table, failing on the first
      one that is missing. */
  function Lookup(w: seq<int>, m: map<int, Reading>): (r: Result<seq<Reading>, Error>)
    ensures r.Success? <==> forall k :: 0 <= k < |w| ==> w[k] in m
    ensures r.Success? ==> |r.value| == |w| && forall k :: 0 <= k < |w| ==> r.value[k] == m[w[k]]
    ensures r.Failure? ==> r.error == MissingSample
  {
    if |w| == 0 then Success([])
    else if w[0] !in m then Failure(MissingSample)
    else
      match Lookup(w[1..], m)
      case Failure(e) => Failure(e)
      case Success(rest) => Success([m[w[0]]] + rest)
  }

  function Downloads(vs: seq<Reading>): (r: seq<int>)
    ensures |r| == |vs|
  {
    seq(|vs|, k requires 0 <= k < |vs| => vs[k].download)
  }

  function Uploads(vs: seq<Reading>): (r: seq<int>)
    ensures |r| == |vs|
  {
    seq(|vs|, k requires 0 <= k < |vs| => vs[k].upload)
  }

  /** The window's lookups succeed exactly when every sample in `[lo, hi)`
      has a table entry. */
  lemma WindowSucceedsIff(ts: seq<int>, m: map<int, Reading>, lo: int, hi: int)
    ensures Lookup(Window(ts, lo, hi), m).Success? <==>
      forall i :: 0 <= i < |ts| && lo <= ts[i] < hi ==> ts[i] in m
  {
    var w := Window(ts, lo, hi);
    if forall i :: 0 <= i < |ts| && lo <= ts[i] < hi ==> ts[i] in m {
      forall j | 0 <= j < |w|
        ensures w[j] in m
      {
        assert w[j] in w;
      }
    } else {
      var i :| 0 <= i < |ts| && lo <= ts[i] < hi && ts[i] !in m;
      assert ts[i] in w;
    }
  }

  lemma SumCons(x: int, xs: seq<int>)
    ensures Sum([x] + xs) == x + Sum(xs)
  {
    assert ([x] + xs)[1..] == xs;
  }

  /** Looking up one more timestamp in front adds its reading in front, and
      its values in front of each column. */
  lemma ReadingsCons(x: int, w: seq<int>, m: map<int, Reading>)
    requires x in m && Lookup(w, m).Success?
    ensures var vs, vs' := Lookup([x] + w, m).value, Lookup(w, m).value;
      && Sum(Downloads(vs)) == m[x].download + Sum(Downloads(vs'))
      && Sum(Uploads(vs)) == m[x].upload + Sum(Uploads(vs'))
  {
    var vs' := Lookup(w, m).value;
    LookupCons(x, w, m);
    ColumnsCons(m[x], vs');
    SumCons(m[x].download, Downloads(vs'));
    SumCons(m[x].upload, Uploads(vs'));
  }

  lemma LookupCons(x: int, w: seq<int>, m: map<int, Reading>)
    requires x in m && Lookup(w, m).Success?
    ensures Lookup([x] + w, m) == Success([m[x]] + Lookup(w, m).value)
  {
    assert ([x] + w)[1..] == w;
  }

  lemma ColumnsCons(v: Reading, vs: seq<Reading>)
    ensures Downloads([v] + vs) == [v.download] + Downloads(vs)
    ensures Uploads([v] + vs) == [v.upload] + Uploads(vs)
  {
  }

  /** Summing the looked-up readings of a window gives the column totals. */
  lemma {:induction false} WindowTotals(ts: seq<int>, m: map<int, Reading>, lo: int, hi: int)
    requires Lookup(Window(ts, lo, hi), m).Success?
    ensures var vs := Lookup(Window(ts, lo, hi), m).value;
      Sum(Downloads(vs)) == Total(ts, m, lo, hi, Download) && Sum(Uploads(vs)) == Total(ts, m, lo, hi, Upload)
    decreases |ts|
  {
    if |ts| > 0 {
      var w, w' := Window(ts, lo, hi), Window(ts[1..], lo, hi);
      var vs := Lookup(w, m).value;
      if lo <= ts[0] < hi {
        assert w == [ts[0]] + w';
        assert ts[0] in m by { assert w[0] == ts[0]; }
        assert Lookup(w', m).Success? by {
          forall k | 0 <= k < |w'|
            ensures w'[k] in m
          {
            assert w'[k] == w[k + 1];
          }
        }
        WindowTotals(ts[1..], m, lo, hi);
        ReadingsCons(ts[0], w', m);
      } else {
        assert w == w';
        WindowTotals(ts[1..], m, lo, hi);
      }
    }
  }

  /** One grid point: the truncated means of the readings in
      `[p, p + step)`, or a pair of nulls when there are none. It raises
      exactly when one of those samples has no table entry. */
  function Bucket(ts: seq<int>, m: map<int, Reading>, p: int, step: int): (r: Result<(Option<int>, Option<int>), Error>)
    requires step > 0
    ensures r.Success? <==> forall i :: 0 <= i < |ts| && p <= ts[i] < p + step ==> ts[i] in m
    ensures r.Failure? ==> r.error == MissingSample
  {
    WindowSucceedsIff(ts, m, p, p + step);
    var l := Lookup(Window(ts, p, p + step), m);
    if l.Failure? then Failure(l.error) else Success(MeansOf(l.value))
  }

  /** Averaging: a bucket that does not raise holds, per column, the sum of
      the table's values of the samples in `[p, p + step)` divided by their
      number (repeats included), or two nulls when there are none. */
  lemma BucketAverage(ts: seq<int>, m: map<int, Reading>, p: int, step: int)
    requires step > 0
    requires Bucket(ts, m, p, step).Success?
    ensures BucketMeans(ts, m, p, step, Bucket(ts, m, p, step).value.0, Bucket(ts, m, p, step).value.1)
  {
    WindowMeans(ts, m, p, step);
  }

  /** The pair of truncated column means of some readings, or two nulls when
      there are none. */
  function MeansOf(vs: seq<Reading>): (Option<int>, Option<int>)
  {
    if |vs| == 0 then (None, None)
    else (Some(Mean(Downloads(vs))), Some(Mean(Uploads(vs))))
  }

  /** Averaging the looked-up readings of a window gives the bucket means
      defined by counting and summing the samples in `[lo, hi)`. */
  lemma WindowMeans(ts: seq<int>, m: map<int, Reading>, p: int, step: int)
    requires Lookup(Window(ts, p, p + step), m).Success?
    ensures var b := MeansOf(Lookup(Window(ts, p, p + step), m).value);
      BucketMeans(ts, m, p, step, b.0, b.1)
  {
    var vs := Lookup(Window(ts, p, p + step), m).value;
    WindowTotals(ts, m, p, p + step);
    WindowCount(ts, p, p + step);
    assert |vs| == CountIn(ts, p, p + step);
  }

  /** The loop over the grid points, failing if any bucket fails. */
  function Fill(ts: seq<int>, m: map<int, Reading>, pts: seq<int>, step: int): (r: Result<Columns, Error>)
    requires step > 0
    ensures r.Success? <==> forall j :: 0 <= j < |pts| ==> Bucket(ts, m, pts[j], step).Success?
    ensures r.Success? ==>
      && |r.value.downloads| == |pts| && |r.value.uploads| == |pts|
      && forall j :: 0 <= j < |pts| ==>
           (r.value.downloads[j], r.value.uploads[j]) == Bucket(ts, m, pts[j], step).value
    ensures r.Failure? ==> r.error == MissingSample
  {
    if |pts| == 0 then Success(Columns([], []))
    else
      match Bucket(ts, m, pts[0], step)
      case Failure(e) => Failure(e)
      case Success(b) =>
        match Fill(ts, m, pts[1..], step)
        case Failure(e) => Failure(e)
        case Success(c) => Success(Columns([b.0] + c.downloads, [b.1] + c.uploads))
  }

  // ---------------------------------------------------------------------
  // The downsampler
  // ---------------------------------------------------------------------

  /** `downsample_data` for a known timerange. Empty input gives three empty
      lists; otherwise the output has one entry per grid point. */
  function Downsample(ts: seq<int>, dl: seq<int>, ul: seq<int>, tr: Timerange, align: Option<int>): (r: Result<Series, Error>)
    ensures |ts| == 0 ==> r == Success(Series([], [], []))
    ensures r.Failure? ==> r.error == MissingSample
    ensures r.Success? && |ts| > 0 ==>
      && |r.value.timestamps| == Points(tr)
      && |r.value.downloads| == Points(tr)
      && |r.value.uploads| == Points(tr)
      && (forall k :: 0 <= k < Points(tr) ==>
            r.value.timestamps[k] == Now(ts, tr, align) - Duration(tr) + k * Interval(tr))
  {
    if |ts| == 0 then Success(Series([], [], []))
    else
      var pts := Grid(Now(ts, tr, align), tr);
      match Fill(ts, DataMap(ts, dl, ul), pts, Interval(tr))
      case Failure(e) => Failure(e)
      case Success(c) => Success(Series(pts, c.downloads, c.uploads))
  }

  /** `downsample_data` called with a timerange key: the empty-input check
      comes first, so an unknown key only raises when there are samples. */
  function DownsampleData(ts: seq<int>, dl: seq<int>, ul: seq<int>, key: string, align: Option<int>): (r: Result<Series, Error>)
    ensures |ts| == 0 ==> r == Success(Series([], [], []))
    ensures |ts| > 0 ==> (r == Failure(UnknownTimerange) <==> FromKey(key).None?)
  {
    if |ts| == 0 then Success(Series([], [], []))
    else
      match FromKey(key)
      case None => Failure(UnknownTimerange)
      case Some(tr) => Downsample(ts, dl, ul, tr, align)
  }

  /** Under a timerange's own key the keyed entry point is the downsampler
      for that timerange. */
  lemma DownsampleDataByKey(ts: seq<int>, dl: seq<int>, ul: seq<int>, tr: Timerange, align: Option<int>)
    ensures DownsampleData(ts, dl, ul, Key(tr), align) == Downsample(ts, dl, ul, tr, align)
  {
    KeyRoundTrip(tr, Key(tr));
  }

  // ---------------------------------------------------------------------
  // Properties of the downsampler
  // ---------------------------------------------------------------------

  /** A successful bucket is a pair of nulls exactly when no timestamp falls in
      `[p, p + step)`. */
  lemma BucketGap(ts: seq<int>, m: map<int, Reading>, p: int, step: int)
    requires step > 0
    requires Bucket(ts, m, p, step).Success?
    ensures var b := Bucket(ts, m, p, step).value;
      && (b.0.None? <==> b.1.None?)
      && (b.0.None? <==> forall i :: 0 <= i < |ts| ==> !(p <= ts[i] < p + step))
  {
    BucketAverage(ts, m, p, step);
  }

  /** Position `k` of a successful output is the bucket of grid point `k`. */
  lemma OutputIsBucket(ts: seq<int>, dl: seq<int>, ul: seq<int>, tr: Timerange, align: Option<int>, k: int)
    requires |ts| > 0
    requires 0 <= k < Points(tr)
    ensures match Downsample(ts, dl, ul, tr, align)
      case Failure(_) => true
      case Success(s) =>
        var b := Bucket(ts, DataMap(ts, dl, ul), s.timestamps[k], Interval(tr));
        b.Success? && s.downloads[k] == b.value.0 && s.uploads[k] == b.value.1
  {
    var m, pts := DataMap(ts, dl, ul), Grid(Now(ts, tr, align), tr);
    var c := Fill(ts, m, pts, Interval(tr));
    if c.Success? {
      assert Downsample(ts, dl, ul, tr, align) == Success(Series(pts, c.value.downloads, c.value.uploads));
      assert Bucket(ts, m, pts[k], Interval(tr)).Success?;
    }
  }

  /** Gap filling: a grid point with no sample in its bucket still appears,
      with null download and upload; a grid point with a sample gets values. */
  lemma GapFilling(ts: seq<int>, dl: seq<int>, ul: seq<int>, tr: Timerange, align: Option<int>, k: int)
    requires |ts| > 0
    requires 0 <= k < Points(tr)
    ensures match Downsample(ts, dl, ul, tr, align)
      case Failure(_) => true
      case Success(s) =>
        var p := s.timestamps[k];
        && (s.downloads[k].None? <==> s.uploads[k].None?)
        && (s.downloads[k].None? <==> forall i :: 0 <= i < |ts| ==> !(p <= ts[i] < p + Interval(tr)))
  {
    OutputIsBucket(ts, dl, ul, tr, align, k);
    var r := Downsample(ts, dl, ul, tr, align);
    if r.Success? {
      BucketGap(ts, DataMap(ts, dl, ul), r.value.timestamps[k], Interval(tr));
    }
  }

  /** Averaging over the output: at every grid point `p` the two values are
      the column sums of the table's readings for the samples in
      `[p, p + interval)` divided by their number, truncated toward zero
      (each repeat of a timestamp counted again, with its last reading), or
      two nulls when no sample falls there. */
  lemma BucketMean(ts: seq<int>, dl: seq<int>, ul: seq<int>, tr: Timerange, align: Option<int>, k: int)
    requires |ts| > 0
    requires 0 <= k < Points(tr)
    ensures match Downsample(ts, dl, ul, tr, align)
      case Failure(_) => true
      case Success(s) =>
        BucketMeans(ts, DataMap(ts, dl, ul), s.timestamps[k], Interval(tr), s.downloads[k], s.uploads[k])
  {
    OutputIsBucket(ts, dl, ul, tr, align, k);
    var r := Downsample(ts, dl, ul, tr, align);
    if r.Success? {
      BucketAverage(ts, DataMap(ts, dl, ul), r.value.timestamps[k], Interval(tr));
    }
  }

  /** The readings a window looks up all come from the zipped value lists. */
  lemma ReadingsFromInput(ts: seq<int>, dl: seq<int>, ul: seq<int>, w: seq<int>, j: int)
    requires Lookup(w, DataMap(ts, dl, ul)).Success?
    requires 0 <= j < |w|
    ensures exists i :: (0 <= i < |ts| && 0 <= i < |dl| && 0 <= i < |ul| && ts[i] == w[j] &&
      Lookup(w, DataMap(ts, dl, ul)).value[j] == Reading(dl[i], ul[i]))
  {
    var n := ZipLength(ts, dl, ul);
    BuildMapProvenance(ts, dl, ul, n, w[j]);
  }

  /** A bucket's averages stay within the ranges of the value lists. */
  lemma BucketBounded(ts: seq<int>, dl: seq<int>, ul: seq<int>, p: int, step: int,
                      dlo: int, dhi: int, ulo: int, uhi: int)
    requires step > 0
    requires forall i :: 0 <= i < |dl| ==> dlo <= dl[i] <= dhi
    requires forall i :: 0 <= i < |ul| ==> ulo <= ul[i] <= uhi
    requires Bucket(ts, DataMap(ts, dl, ul), p, step).Success?
    ensures var b := Bucket(ts, DataMap(ts, dl, ul), p, step).value;
      && (b.0.Some? ==> dlo <= b.0.value <= dhi)
      && (b.1.Some? ==> ulo <= b.1.value <= uhi)
  {
    var w := Window(ts, p, p + step);
    var vs := Lookup(w, DataMap(ts, dl, ul)).value;
    if |vs| > 0 {
      var xs, ys := Downloads(vs), Uploads(vs);
      forall j | 0 <= j < |vs|
        ensures dlo <= xs[j] <= dhi && ulo <= ys[j] <= uhi
      {
        ReadingsFromInput(ts, dl, ul, w, j);
      }
      MeanWithinRange(xs, dlo, dhi);
      MeanWithinRange(ys, ulo, uhi);
    }
  }

  /** Every non-null value in the output lies within the range of the input
      values of its column. */
  lemma BucketWithinRange(ts: seq<int>, dl: seq<int>, ul: seq<int>, tr: Timerange, align: Option<int>,
                          k: int, dlo: int, dhi: int, ulo: int, uhi: int)
    requires |ts| > 0
    requires 0 <= k < Points(tr)
    requires forall i :: 0 <= i < |dl| ==> dlo <= dl[i] <= dhi
    requires forall i :: 0 <= i < |ul| ==> ulo <= ul[i] <= uhi
    ensures match Downsample(ts, dl, ul, tr, align)
      case Failure(_) => true
      case Success(s) =>
        && (s.downloads[k].Some? ==> dlo <= s.downloads[k].value <= dhi)
        && (s.uploads[k].Some? ==> ulo <= s.uploads[k].value <= uhi)
  {
    OutputIsBucket(ts, dl, ul, tr, align, k);
    var r := Downsample(ts, dl, ul, tr, align);
    if r.Success? {
      BucketBounded(ts, dl, ul, r.value.timestamps[k], Interval(tr), dlo, dhi, ulo, uhi);
    }
  }

  /** The bucket loop over the grid succeeds exactly when every timestamp in
      `[now - duration, now + interval)` has a table entry. */
  lemma FillSucceedsIff(ts: seq<int>, m: map<int, Reading>, now: int, tr: Timerange)
    requires now % Interval(tr) == 0
    ensures Fill(ts, m, Grid(now, tr), Interval(tr)).Success? <==>
      forall i :: 0 <= i < |ts| && now - Duration(tr) <= ts[i] < now + Interval(tr) ==> ts[i] in m
    ensures Fill(ts, m, Grid(now, tr), Interval(tr)).Failure? <==>
      exists i :: 0 <= i < |ts| && now - Duration(tr) <= ts[i] < now + Interval(tr) && ts[i] !in m
  {
    if forall i :: 0 <= i < |ts| && now - Duration(tr) <= ts[i] < now + Interval(tr) ==> ts[i] in m {
      CoveredBucketsSucceed(ts, m, now, tr);
    } else {
      var i :| 0 <= i < |ts| && now - Duration(tr) <= ts[i] < now + Interval(tr) && ts[i] !in m;
      MissingSampleFails(ts, m, now, tr, i);
    }
  }

  lemma CoveredBucketsSucceed(ts: seq<int>, m: map<int, Reading>, now: int, tr: Timerange)
    requires now % Interval(tr) == 0
    requires forall i :: 0 <= i < |ts| && now - Duration(tr) <= ts[i] < now + Interval(tr) ==> ts[i] in m
    ensures forall k :: 0 <= k < |Grid(now, tr)| ==> Bucket(ts, m, Grid(now, tr)[k], Interval(tr)).Success?
  {
    var pts, step := Grid(now, tr), Interval(tr);
    forall k | 0 <= k < |pts|
      ensures Bucket(ts, m, pts[k], step).Success?
    {
      forall i | 0 <= i < |ts| && pts[k] <= ts[i] < pts[k] + step
        ensures ts[i] in m
      {
        GridCovers(now, tr, ts[i]);
      }
    }
  }

  lemma MissingSampleFails(ts: seq<int>, m: map<int, Reading>, now: int, tr: Timerange, i: int)
    requires now % Interval(tr) == 0
    requires 0 <= i < |ts| && now - Duration(tr) <= ts[i] < now + Interval(tr) && ts[i] !in m
    ensures exists k :: 0 <= k < |Grid(now, tr)| && Bucket(ts, m, Grid(now, tr)[k], Interval(tr)).Failure?
  {
    var pts, step := Grid(now, tr), Interval(tr);
    GridCovers(now, tr, ts[i]);
    var k :| 0 <= k < |pts| && pts[k] <= ts[i] < pts[k] + step;
    assert Bucket(ts, m, pts[k], step).Failure?;
  }

  /** The downsampler raises `KeyError` exactly when some timestamp inside
      `[now - duration, now + interval)` has no entry in the lookup table,
      which can only happen when the value lists are shorter than the
      timestamp list. */
  lemma MissingSampleIff(ts: seq<int>, dl: seq<int>, ul: seq<int>, tr: Timerange, align: Option<int>)
    requires |ts| > 0
    ensures var now := Now(ts, tr, align);
      Downsample(ts, dl, ul, tr, align).Failure? <==>
      exists i :: 0 <= i < |ts| && now - Duration(tr) <= ts[i] < now + Interval(tr)
               && ts[i] !in DataMap(ts, dl, ul)
  {
    var now, m := Now(ts, tr, align), DataMap(ts, dl, ul);
    var fill := Fill(ts, m, Grid(now, tr), Interval(tr));
    assert fill.Failure? <==>
      exists i :: 0 <= i < |ts| && now - Duration(tr) <= ts[i] < now + Interval(tr) && ts[i] !in m
    by {
      FillSucceedsIff(ts, m, now, tr);
    }
    assert Downsample(ts, dl, ul, tr, align).Failure? <==> fill.Failure? by {
      DownsampleIsFill(ts, dl, ul, tr, align);
    }
  }

  lemma DownsampleIsFill(ts: seq<int>, dl: seq<int>, ul: seq<int>, tr: Timerange, align: Option<int>)
    requires |ts| > 0
    ensures Downsample(ts, dl, ul, tr, align).Failure?
        <==> Fill(ts, DataMap(ts, dl, ul), Grid(Now(ts, tr, align), tr), Interval(tr)).Failure?
  {
  }

  /** When the value lists are at least as long as the timestamp list (as the
      query handlers always pass them) the downsampler never raises. */
  lemma ParallelListsSucceed(ts: seq<int>, dl: seq<int>, ul: seq<int>, tr: Timerange, align: Option<int>)
    requires |dl| >= |ts| && |ul| >= |ts|
    ensures Downsample(ts, dl, ul, tr, align).Success?
  {
    if |ts| > 0 {
      MissingSampleIff(ts, dl, ul, tr, align);
      forall i | 0 <= i < |ts|
        ensures ts[i] in DataMap(ts, dl, ul)
      {
      }
    }
  }

  /** Alignment stability: with the same timerange and the same non-zero
      alignment, two non-empty sample sets produce the same bucket starts. */
  lemma AlignmentStable(ts1: seq<int>, dl1: seq<int>, ul1: seq<int>,
                        ts2: seq<int>, dl2: seq<int>, ul2: seq<int>,
                        tr: Timerange, align: int)
    requires align != 0
    requires |ts1| > 0 && |ts2| > 0
    ensures match (Downsample(ts1, dl1, ul1, tr, Some(align)), Downsample(ts2, dl2, ul2, tr, Some(align)))
      case (Success(s1), Success(s2)) =>
        && s1.timestamps == s2.timestamps
        && s1.timestamps[Points(tr) - 1] == FloorTo(align, Interval(tr))
      case _ => true
  {
  }

  /** Without a (non-zero) alignment the last grid point is the bucket of the
      newest sample, so the last bucket is never a gap. */
  lemma NewestBucketFilled(ts: seq<int>, dl: seq<int>, ul: seq<int>, tr: Timerange, align: Option<int>)
    requires |ts| > 0
    requires align.None? || align.value == 0
    ensures match Downsample(ts, dl, ul, tr, align)
      case Failure(_) => true
      case Success(s) => s.downloads[Points(tr) - 1].Some? && s.uploads[Points(tr) - 1].Some?
  {
    match Downsample(ts, dl, ul, tr, align)
    case Failure(_) =>
    case Success(s) =>
      var k, now := Points(tr) - 1, Now(ts, tr, align);
      GapFilling(ts, dl, ul, tr, align, k);
      assert s.timestamps[k] == now;
      var i :| 0 <= i < |ts| && now <= ts[i];
      assert now <= ts[i] < now + Interval(tr);
  }

  lemma {:induction false} WindowAppendOutside(ts: seq<int>, t: int, lo: int, hi: int)
    requires !(lo <= t < hi)
    ensures Window(ts + [t], lo, hi) == Window(ts, lo, hi)
    decreases |ts|
  {
    if |ts| == 0 {
      assert Window([t], lo, hi) == [] + Window([t][1..], lo, hi);
    } else {
      assert (ts + [t])[1..] == ts[1..] + [t];
      WindowAppendOutside(ts[1..], t, lo, hi);
    }
  }

  lemma {:induction false} LookupUpdateOther(w: seq<int>, m: map<int, Reading>, t: int, v: Reading)
    requires t !in w
    ensures Lookup(w, m[t := v]) == Lookup(w, m)
    decreases |w|
  {
    if |w| > 0 {
      assert w == [w[0]] + w[1..];
      LookupUpdateOther(w[1..], m, t, v);
    }
  }

  lemma BucketIgnoresOutside(ts: seq<int>, m: map<int, Reading>, t: int, v: Reading, p: int, step: int)
    requires step > 0
    requires !(p <= t < p + step)
    ensures Bucket(ts + [t], m[t := v], p, step) == Bucket(ts, m, p, step)
  {
    WindowAppendOutside(ts, t, p, p + step);
    LookupUpdateOther(Window(ts, p, p + step), m, t, v);
  }

  lemma {:induction false} FillIgnoresOutside(ts: seq<int>, m: map<int, Reading>, t: int, v: Reading,
                                              pts: seq<int>, step: int)
    requires step > 0
    requires forall j :: 0 <= j < |pts| ==> !(pts[j] <= t < pts[j] + step)
    ensures Fill(ts + [t], m[t := v], pts, step) == Fill(ts, m, pts, step)
    decreases |pts|
  {
    if |pts| > 0 {
      BucketIgnoresOutside(ts, m, t, v, pts[0], step);
      FillIgnoresOutside(ts, m, t, v, pts[1..], step);
    }
  }

  /** A sample outside the output window changes no bucket, so appending it
      leaves the whole output unchanged: with a non-zero alignment anything
      before `now - duration` or from `now + interval` on; without one
      anything before `now - duration` (a later sample would move `now`). */
  lemma OutsideSampleIgnored(ts: seq<int>, dl: seq<int>, ul: seq<int>, tr: Timerange, align: Option<int>,
                             t: int, d: int, u: int)
    requires |ts| > 0 && |dl| == |ts| && |ul| == |ts|
    requires var now := Now(ts, tr, align);
      || t < now - Duration(tr)
      || (align.Some? && align.value != 0 && now + Interval(tr) <= t)
    ensures Downsample(ts + [t], dl + [d], ul + [u], tr, align)
         == Downsample(ts, dl, ul, tr, align)
  {
    var now := Now(ts, tr, align);
    NowAppend(ts, tr, align, t);
    DataMapAppend(ts, dl, ul, t, d, u);
    OutsideGrid(now, tr, t);
    FillIgnoresOutside(ts, DataMap(ts, dl, ul), t, Reading(d, u), Grid(now, tr), Interval(tr));
  }

  /** A sample before `now` does not move `now`, and with a non-zero
      alignment no sample does. */
  lemma NowAppend(ts: seq<int>, tr: Timerange, align: Option<int>, t: int)
    requires |ts| > 0
    requires !(align.Some? && align.value != 0) ==> t < Now(ts, tr, align)
    ensures Now(ts + [t], tr, align) == Now(ts, tr, align)
  {
    if !(align.Some? && align.value != 0) {
      MaxOfAppend(ts, t);
    }
  }

  /** Appending a value no larger than the maximum keeps the maximum. */
  lemma MaxOfAppend(s: seq<int>, t: int)
    requires |s| > 0 && t <= MaxOf(s)
    ensures MaxOf(s + [t]) == MaxOf(s)
  {
    var r, s' := MaxOf(s), s + [t];
    var i :| 0 <= i < |s| && s[i] == r;
    assert s'[i] == s[i];
    var j :| 0 <= j < |s'| && s'[j] == MaxOf(s');
    if j < |s| {
      assert s'[j] == s[j];
    }
  }

  /** Appending one sample to three equally long lists adds (or replaces) one
      table entry. */
  lemma DataMapAppend(ts: seq<int>, dl: seq<int>, ul: seq<int>, t: int, d: int, u: int)
    requires |dl| == |ts| && |ul| == |ts|
    ensures DataMap(ts + [t], dl + [d], ul + [u]) == DataMap(ts, dl, ul)[t := Reading(d, u)]
  {
    BuildMapAppend(ts, dl, ul, t, d, u, |ts|);
  }

  /** A timestamp outside the output window lies in no grid bucket. */
  lemma OutsideGrid(now: int, tr: Timerange, t: int)
    requires now % Interval(tr) == 0
    requires t < now - Duration(tr) || now + Interval(tr) <= t
    ensures forall j :: 0 <= j < |Grid(now, tr)| ==> !(Grid(now, tr)[j] <= t < Grid(now, tr)[j] + Interval(tr))
  {
    GridCovers(now, tr, t);
  }

  /** A bucket in which every sample (there is at least one) carries the same
      timestamp averages that timestamp's single table entry with itself, so
      it holds that entry; samples outside the bucket may be anything. */
  lemma BucketOfCopies(ts: seq<int>, t: int, m: map<int, Reading>, p: int, step: int)
    requires step > 0
    requires t in m
    requires forall i :: 0 <= i < |ts| && p <= ts[i] < p + step ==> ts[i] == t
    requires exists i :: 0 <= i < |ts| && p <= ts[i] < p + step
    ensures Bucket(ts, m, p, step) == Success((Some(m[t].download), Some(m[t].upload)))
  {
    var w := Window(ts, p, p + step);
    var i :| 0 <= i < |ts| && p <= ts[i] < p + step;
    assert ts[i] in w;
    forall k | 0 <= k < |w|
      ensures w[k] == t
    {
      assert w[k] in w;
      var i' :| 0 <= i' < |ts| && ts[i'] == w[k];
    }
    var vs := Lookup(w, m).value;
    assert Downloads(vs) == seq(|w|, _ => m[t].download);
    assert Uploads(vs) == seq(|w|, _ => m[t].upload);
    MeanOfCopies(m[t].download, |w|);
    MeanOfCopies(m[t].upload, |w|);
  }

  /** Repeated timestamps, no alignment: when every sample carries the same second, they
      all contribute the last sample's values, so the newest bucket holds
      exactly that sample's download and upload. */
  lemma LastWins(ts: seq<int>, t: int, dl: seq<int>, ul: seq<int>, tr: Timerange)
    requires |ts| > 0 && |dl| == |ts| && |ul| == |ts|
    requires forall i :: 0 <= i < |ts| ==> ts[i] == t
    ensures var r := Downsample(ts, dl, ul, tr, None);
      && r.Success?
      && r.value.downloads[Points(tr) - 1] == Some(dl[|ts| - 1])
      && r.value.uploads[Points(tr) - 1] == Some(ul[|ts| - 1])
  {
    ParallelListsSucceed(ts, dl, ul, tr, None);
    var k := Points(tr) - 1;
    OutputIsBucket(ts, dl, ul, tr, None, k);
    var now := Now(ts, tr, None);
    assert Downsample(ts, dl, ul, tr, None).value.timestamps[k] == now;
    CopiesInNewestBucket(ts, t, tr);
    LastEntry(ts, t, dl, ul);
    assert now <= ts[0] < now + Interval(tr);
    BucketOfCopies(ts, t, DataMap(ts, dl, ul), now, Interval(tr));
  }

  lemma CopiesInNewestBucket(ts: seq<int>, t: int, tr: Timerange)
    requires |ts| > 0 && forall i :: 0 <= i < |ts| ==> ts[i] == t
    ensures var now := Now(ts, tr, None);
      now <= t < now + Interval(tr)
  {
    assert ts[0] == t;
  }

  lemma LastEntry(ts: seq<int>, t: int, dl: seq<int>, ul: seq<int>)
    requires |ts| > 0 && |dl| == |ts| && |ul| == |ts|
    requires forall i :: 0 <= i < |ts| ==> ts[i] == t
    ensures t in DataMap(ts, dl, ul) && DataMap(ts, dl, ul)[t] == Reading(dl[|ts| - 1], ul[|ts| - 1])
  {
    var n := |ts|;
    assert ZipLength(ts, dl, ul) == n;
    BuildMapLastWins(ts, dl, ul, n, n - 1);
  }
}
