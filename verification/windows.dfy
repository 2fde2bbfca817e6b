/** The preset dashboard windows and their interval and duration tables. */
module Windows {
  import opened Wrappers

  /** The five timerange identifiers accepted by the query endpoints. */
  datatype Timerange = Minute | TenMinutes | Hour | Day | Week

  /** The dictionary key under which each timerange is looked up; looking
      it up finds that timerange. */
  function Key(tr: Timerange): (r: string)
    ensures FromKey(r) == Some(tr)
  {
    match tr
    case Minute => "minute"
    case TenMinutes => "tenminutes"
    case Hour => "hour"
    case Day => "day"
    case Week => "week"
  }

  /** The five keys of the `intervals` and `durations` dictionaries. */
  const KeyNames: set<string> := {"minute", "tenminutes", "hour", "day", "week"}

  /** Looks a key up in the timerange tables; `None` is the `KeyError` raised
      for any key outside the five. */
  function FromKey(key: string): (r: Option<Timerange>)
    ensures r.Some? <==> key in KeyNames
  {
    if key == "minute" then Some(Minute)
    else if key == "tenminutes" then Some(TenMinutes)
    else if key == "hour" then Some(Hour)
    else if key == "day" then Some(Day)
    else if key == "week" then Some(Week)
    else None
  }

  /** Every timerange is found under its own key and no other, and a key is
      rejected exactly when it is no timerange's key. */
  lemma KeyRoundTrip(tr: Timerange, key: string)
    ensures FromKey(key) == Some(tr) <==> key == Key(tr)
    ensures FromKey(key).None? <==> forall t: Timerange :: Key(t) != key
  {
    if FromKey(key).Some? {
      var t := FromKey(key).value;
      assert Key(t) == key;
    }
  }

  /** Bucket width in seconds (`get_interval`). */
  function Interval(tr: Timerange): (r: int)
    ensures r > 0
  {
    match tr
    case Minute => 1
    case TenMinutes => 5
    case Hour => 30
    case Day => 720
    case Week => 3600
  }

  /** Total window length in seconds (the `durations` table); it is always a
      whole number of buckets. */
  function Duration(tr: Timerange): (r: int)
    ensures r > 0
    ensures r % Interval(tr) == 0
  {
    match tr
    case Minute => 60
    case TenMinutes => 600
    case Hour => 3600
    case Day => 86400
    case Week => 604800
  }

  /** Number of grid points a non-empty query produces. */
  function Points(tr: Timerange): (r: nat)
    ensures (r - 1) * Interval(tr) == Duration(tr)
  {
    Duration(tr) / Interval(tr) + 1
  }

  /** The grid sizes per window: 61, 121, 121, 121 and 169 points. */
  lemma PointsTable()
    ensures Points(Minute) == 61 && Points(TenMinutes) == 121 && Points(Hour) == 121
    ensures Points(Day) == 121 && Points(Week) == 169
  {
  }
}
