/**
 * The batch loader of the comparison app: loading one variable from many
 * files with a progress trace, rewriting sentinel values to NaN, collecting
 * the span of years, and the summary statistics the plots share (colour
 * range and map, coordinate extent).
 *
 * Opening a file (with the grid correction applied to it), turning time
 * coordinates into years, percentiles and random subsampling are parameters.
 */
module DataLoader {
  import opened Wrappers
  import opened Text
  import opened Collections

  // ---------------------------------------------------------------------
  // Arrays
  // ---------------------------------------------------------------------

  /** A floating-point element: a finite value, NaN or an infinity. */
  datatype Num = Finite(v: real) | NaN | PosInf | NegInf

  /** IEEE `==`: NaN equals nothing, not even NaN. */
  predicate IeeeEq(a: Num, b: Num) {
    !a.NaN? && a == b
  }

  /** A loaded variable: dimension names, shape, flattened values and named coordinates. */
  datatype DataArray = DataArray(
    dims: seq<string>,
    shape: seq<nat>,
    values: seq<Num>,
    coords: map<string, seq<real>>)

  /** Whether any of `sentinels` equals `x`. */
  predicate IsSentinel(x: Num, sentinels: seq<Num>) {
    exists k :: 0 <= k < |sentinels| && IeeeEq(x, sentinels[k])
  }

  /** `a.where(a != s, nan)`: every element equal to `s` becomes NaN. */
  function Where(a: DataArray, s: Num): (r: DataArray)
    ensures r.dims == a.dims && r.shape == a.shape && r.coords == a.coords
    ensures |r.values| == |a.values|
    ensures forall j :: 0 <= j < |a.values| ==> r.values[j] == if IeeeEq(a.values[j], s) then NaN else a.values[j]
  {
    a.(values := seq(|a.values|, j requires 0 <= j < |a.values| =>
                       if IeeeEq(a.values[j], s) then NaN else a.values[j]))
  }

  /** The array after every sentinel has been rewritten, one `where` per sentinel. */
  function Sanitize(a: DataArray, sentinels: seq<Num>): (r: DataArray)
    ensures r.dims == a.dims && r.shape == a.shape && r.coords == a.coords
    ensures |r.values| == |a.values|
    ensures forall j :: 0 <= j < |a.values| ==>
      r.values[j] == if IsSentinel(a.values[j], sentinels) then NaN else a.values[j]
  {
    if |sentinels| == 0 then a
    else
      var init := sentinels[..|sentinels| - 1];
      var s := sentinels[|sentinels| - 1];
      var r := Where(Sanitize(a, init), s);
      assert forall j :: 0 <= j < |a.values| ==>
        r.values[j] == if IsSentinel(a.values[j], sentinels) then NaN else a.values[j] by {
        forall j | 0 <= j < |a.values|
          ensures r.values[j] == if IsSentinel(a.values[j], sentinels) then NaN else a.values[j]
        {
          if IsSentinel(a.values[j], init) {
            var k :| 0 <= k < |init| && IeeeEq(a.values[j], init[k]);
            assert sentinels[k] == init[k];
          } else if IsSentinel(a.values[j], sentinels) {
            var k :| 0 <= k < |sentinels| && IeeeEq(a.values[j], sentinels[k]);
          }
        }
      }
      r
  }

  /** The loop that rebinds the array once per sentinel. */
  method ReplaceSentinels(a: DataArray, sentinels: seq<Num>) returns (r: DataArray)
    ensures r == Sanitize(a, sentinels)
  {
    r := a;
    var k := 0;
    while k < |sentinels|
      invariant 0 <= k <= |sentinels|
      invariant r == Sanitize(a, sentinels[..k])
    {
      assert sentinels[..k + 1][..k] == sentinels[..k];
      r := Where(r, sentinels[k]);
      k := k + 1;
    }
    assert sentinels[..k] == sentinels;
  }

  /** Whether the array carries `time` both as a dimension and as a coordinate. */
  predicate HasTime(a: DataArray) {
    "time" in a.dims && "time" in a.coords
  }

  // ---------------------------------------------------------------------
  // One batch
  // ---------------------------------------------------------------------

  /** One entry of the file list: display key, model, experiment, URL and size in bytes. */
  datatype FileRequest = FileRequest(key: string, model: string, experiment: string, url: string, sizeBytes: int)

  /** Opening a file: its variables, or the text of the exception raised. */
  type Opener = string -> Result<map<string, DataArray>, string>

  /** Turning a time coordinate into calendar years, or `None` when that raises. */
  type YearReader = seq<real> -> Option<seq<int>>

  /** What is being loaded: the files, the variable, the sentinels and the cache setting. */
  datatype Batch = Batch(files: seq<FileRequest>, variable: string, sentinels: seq<Num>, cacheEnabled: bool)

  /** The status half of a progress callback. */
  datatype Status =
    | Loading(model: string, experiment: string, sizeMb: real)
    | Missing(variable: string, key: string)
    | Failed(key: string, reason: string)
    | Finished(count: nat)
    | NothingToLoad

  /** One progress callback: a percentage and a status. */
  datatype Event = Event(percent: real, status: Status)

  /** The status text shown for a callback; `mb` renders a size in MB with one decimal. */
  function Message(s: Status, mb: real -> string): string {
    match s
    case Loading(model, experiment, size) => "Loading " + model + " - " + experiment + "... (" + mb(size) + " MB)"
    case Missing(variable, key) => "Warning: " + variable + " not found in " + key
    case Failed(key, reason) => "Error loading " + key + ": " + reason
    case Finished(count) => "Loaded " + NatToString(count) + " datasets successfully"
    case NothingToLoad => "No files to load"
  }

  /** The text of the exception the cached loader raises for a missing variable. */
  function NotFoundReason(variable: string): string {
    "Variable " + variable + " not found in dataset"
  }

  /** What loading one file amounts to. */
  datatype Outcome = Stored(data: DataArray) | Rejected(status: Status)

  /**
   * The outcome of one file: an open error is reported as an error; a
   * missing variable is an error on the cached path and a warning on the
   * direct path; otherwise the variable's array is kept.
   */
  function OutcomeOf(b: Batch, open: Opener, f: FileRequest): (o: Outcome)
    ensures o.Rejected? ==> (o.status.Failed? && o.status.key == f.key) || o.status == Missing(b.variable, f.key)
    ensures o.Rejected? && o.status.Missing? ==> !b.cacheEnabled
  {
    match open(f.url)
    case Err(reason) => Rejected(Failed(f.key, reason))
    case Ok(vars) =>
      if b.variable !in vars then
        if b.cacheEnabled then Rejected(Failed(f.key, NotFoundReason(b.variable)))
        else Rejected(Missing(b.variable, f.key))
      else Stored(vars[b.variable])
  }

  /** `(i / total) * 100`. */
  function Percent(i: nat, total: nat): real
    requires total > 0
  {
    (i as real / total as real) * 100.0
  }

  lemma PercentMonotone(i: nat, j: nat, total: nat)
    requires total > 0 && i <= j
    ensures Percent(i, total) <= Percent(j, total)
  {
    var t := total as real;
    assert i as real / t <= j as real / t by {
      assert (j as real / t) - (i as real / t) == (j - i) as real / t;
    }
  }

  lemma DivSelf(t: real)
    requires t > 0.0
    ensures t / t == 1.0
  {
  }

  lemma PercentBounds(i: nat, total: nat)
    requires total > 0 && i <= total
    ensures 0.0 <= Percent(i, total) <= 100.0
  {
    PercentMonotone(i, total, total);
    PercentMonotone(0, i, total);
    DivSelf(total as real);
  }

  /** The callbacks for file `i`: one before it, and one more if it is rejected. */
  function FileEvents(b: Batch, open: Opener, i: nat): seq<Event>
    requires i < |b.files|
  {
    var f := b.files[i];
    var n := |b.files|;
    [Event(Percent(i, n), Loading(f.model, f.experiment, f.sizeBytes as real / 1048576.0))] +
    match OutcomeOf(b, open, f)
    case Stored(_) => []
    case Rejected(status) => [Event(Percent(i + 1, n), status)]
  }

  /** The callbacks for the first `k` files. */
  function EventsUpTo(b: Batch, open: Opener, k: nat): seq<Event>
    requires k <= |b.files|
  {
    if k == 0 then [] else EventsUpTo(b, open, k - 1) + FileEvents(b, open, k - 1)
  }

  /** The result mapping after the first `k` files: a later file with the same key replaces the earlier. */
  function StoredUpTo(b: Batch, open: Opener, k: nat): (d: Dict<string, DataArray>)
    requires k <= |b.files|
    ensures DistinctKeys(d)
  {
    if k == 0 then []
    else
      var d := StoredUpTo(b, open, k - 1);
      var f := b.files[k - 1];
      match OutcomeOf(b, open, f)
      case Rejected(_) => d
      case Stored(data) => Put(d, f.key, Sanitize(data, b.sentinels))
  }

  /** The time coordinates collected from the first `k` files. */
  function TimeCoordsUpTo(b: Batch, open: Opener, k: nat): seq<seq<real>>
    requires k <= |b.files|
  {
    if k == 0 then []
    else
      var coords := TimeCoordsUpTo(b, open, k - 1);
      match OutcomeOf(b, open, b.files[k - 1])
      case Rejected(_) => coords
      case Stored(data) =>
        var a := Sanitize(data, b.sentinels);
        if HasTime(a) then coords + [a.coords["time"]] else coords
  }

  /** All years of all collected time coordinates, or `None` when reading one raises. */
  function AllYears(coords: seq<seq<real>>, years: YearReader): Option<seq<int>> {
    if |coords| == 0 then Some([])
    else
      match AllYears(coords[..|coords| - 1], years)
      case None => None
      case Some(ys) =>
        match years(coords[|coords| - 1])
        case None => None
        case Some(more) => Some(ys + more)
  }

  /** The `(min, max)` year, if any year could be read. */
  function TimeRangeOf(coords: seq<seq<real>>, years: YearReader): (r: Option<(int, int)>)
    ensures r.Some? <==> AllYears(coords, years).Some? && |AllYears(coords, years).value| > 0
    ensures r.Some? ==> var ys := AllYears(coords, years).value;
      r.value.0 <= r.value.1 && r.value.0 in ys && r.value.1 in ys &&
      forall j :: 0 <= j < |ys| ==> r.value.0 <= ys[j] <= r.value.1
  {
    match AllYears(coords, years)
    case None => None
    case Some(ys) => if |ys| == 0 then None else Some((MinInt(ys), MaxInt(ys)))
  }

  /** The year-range computation after the loop, with its `try`. */
  method TimeRange(coords: seq<seq<real>>, years: YearReader) returns (r: Option<(int, int)>)
    ensures r == TimeRangeOf(coords, years)
  {
    var all: seq<int> := [];
    var c := 0;
    while c < |coords|
      invariant 0 <= c <= |coords|
      invariant AllYears(coords[..c], years) == Some(all)
    {
      assert coords[..c + 1][..c] == coords[..c];
      var ys := years(coords[c]);
      if ys.None? {
        NoYearsAfter(coords, years, c + 1);
        assert coords[..c + 1][..c + 1] == coords[..c + 1];
        return None;
      }
      all := all + ys.value;
      c := c + 1;
    }
    assert coords[..c] == coords;
    if |all| == 0 {
      return None;
    }
    return Some((MinInt(all), MaxInt(all)));
  }

  /** Once reading one coordinate raises, reading all of them raises. */
  lemma {:induction false} NoYearsAfter(coords: seq<seq<real>>, years: YearReader, k: nat)
    requires k <= |coords| && AllYears(coords[..k], years).None?
    ensures AllYears(coords, years).None?
    decreases |coords| - k
  {
    if k < |coords| {
      assert coords[..k + 1][..k] == coords[..k];
      NoYearsAfter(coords, years, k + 1);
    } else {
      assert coords[..k] == coords;
    }
  }

  /** The whole result of a batch: the mapping, the year range and every callback. */
  function LoadResult(b: Batch, open: Opener, years: YearReader): (Dict<string, DataArray>, Option<(int, int)>, seq<Event>) {
    var n := |b.files|;
    if n == 0 then ([], None, [Event(100.0, NothingToLoad)])
    else
      var d := StoredUpTo(b, open, n);
      (d, TimeRangeOf(TimeCoordsUpTo(b, open, n), years),
       EventsUpTo(b, open, n) + [Event(100.0, Finished(|d|))])
  }

  /** One pass of the loop: load file `i` and report on it. */
  method LoadFile(b: Batch, open: Opener, i: nat, datasets: Dict<string, DataArray>, events: seq<Event>, timeCoords: seq<seq<real>>)
    returns (datasets': Dict<string, DataArray>, events': seq<Event>, timeCoords': seq<seq<real>>)
    requires i < |b.files|
    requires datasets == StoredUpTo(b, open, i) && events == EventsUpTo(b, open, i) && timeCoords == TimeCoordsUpTo(b, open, i)
    ensures datasets' == StoredUpTo(b, open, i + 1)
    ensures events' == EventsUpTo(b, open, i + 1)
    ensures timeCoords' == TimeCoordsUpTo(b, open, i + 1)
  {
    datasets', events', timeCoords' := datasets, events, timeCoords;
    var f := b.files[i];
    events' := events' + [Event(Percent(i, |b.files|), Loading(f.model, f.experiment, f.sizeBytes as real / 1048576.0))];
    var loaded := open(f.url);
    if loaded.Err? {
      RejectedStep(b, open, i, Failed(f.key, loaded.error));
      events' := events' + [Event(Percent(i + 1, |b.files|), Failed(f.key, loaded.error))];
    } else if b.variable !in loaded.value {
      if b.cacheEnabled {
        RejectedStep(b, open, i, Failed(f.key, NotFoundReason(b.variable)));
        events' := events' + [Event(Percent(i + 1, |b.files|), Failed(f.key, NotFoundReason(b.variable)))];
      } else {
        RejectedStep(b, open, i, Missing(b.variable, f.key));
        events' := events' + [Event(Percent(i + 1, |b.files|), Missing(b.variable, f.key))];
      }
    } else {
      StoredStep(b, open, i, loaded.value[b.variable]);
      var data := ReplaceSentinels(loaded.value[b.variable], b.sentinels);
      if HasTime(data) {
        timeCoords' := timeCoords' + [data.coords["time"]];
      }
      datasets' := Put(datasets', f.key, data);
    }
  }

  /**
   * `load_datasets_async`, run sequentially. `timeStep` is accepted and
   * never read: every time step is kept.
   */
  method LoadDatasets(b: Batch, timeStep: Option<int>, open: Opener, years: YearReader)
    returns (datasets: Dict<string, DataArray>, timeRange: Option<(int, int)>, events: seq<Event>)
    ensures (datasets, timeRange, events) == LoadResult(b, open, years)
  {
    datasets := [];
    events := [];
    var total := |b.files|;
    if total == 0 {
      events := [Event(100.0, NothingToLoad)];
      return datasets, None, events;
    }
    var timeCoords: seq<seq<real>> := [];
    var i := 0;
    while i < total
      invariant 0 <= i <= total
      invariant datasets == StoredUpTo(b, open, i)
      invariant events == EventsUpTo(b, open, i)
      invariant timeCoords == TimeCoordsUpTo(b, open, i)
    {
      datasets, events, timeCoords := LoadFile(b, open, i, datasets, events, timeCoords);
      i := i + 1;
    }
    timeRange := TimeRange(timeCoords, years);
    events := events + [Event(100.0, Finished(|datasets|))];
  }

  /** The callback announcing file `i`. */
  function LoadingEvent(b: Batch, i: nat): Event
    requires i < |b.files|
  {
    var f := b.files[i];
    Event(Percent(i, |b.files|), Loading(f.model, f.experiment, f.sizeBytes as real / 1048576.0))
  }

  /** A rejected file adds its two callbacks and leaves the mapping and the time coordinates alone. */
  lemma RejectedStep(b: Batch, open: Opener, i: nat, status: Status)
    requires i < |b.files| && OutcomeOf(b, open, b.files[i]) == Rejected(status)
    ensures EventsUpTo(b, open, i + 1) == EventsUpTo(b, open, i) + [LoadingEvent(b, i)] + [Event(Percent(i + 1, |b.files|), status)]
    ensures StoredUpTo(b, open, i + 1) == StoredUpTo(b, open, i)
    ensures TimeCoordsUpTo(b, open, i + 1) == TimeCoordsUpTo(b, open, i)
  {
  }

  /** A stored file adds one callback, its cleaned array and perhaps its time coordinate. */
  lemma StoredStep(b: Batch, open: Opener, i: nat, data: DataArray)
    requires i < |b.files| && OutcomeOf(b, open, b.files[i]) == Stored(data)
    ensures EventsUpTo(b, open, i + 1) == EventsUpTo(b, open, i) + [LoadingEvent(b, i)]
    ensures StoredUpTo(b, open, i + 1) == Put(StoredUpTo(b, open, i), b.files[i].key, Sanitize(data, b.sentinels))
    ensures var a := Sanitize(data, b.sentinels);
      TimeCoordsUpTo(b, open, i + 1) ==
        if HasTime(a) then TimeCoordsUpTo(b, open, i) + [a.coords["time"]] else TimeCoordsUpTo(b, open, i)
  {
  }

  // ---------------------------------------------------------------------
  // What a batch promises
  // ---------------------------------------------------------------------

  ghost predicate NonDecreasing(es: seq<Event>) {
    forall i, j :: 0 <= i < j < |es| ==> es[i].percent <= es[j].percent
  }

  /** Every percentage of `es` lies in [lo, hi]. */
  ghost predicate Within(es: seq<Event>, lo: real, hi: real) {
    forall e :: e in es ==> lo <= e.percent <= hi
  }

  /**
   * Two runs that never decrease, the first in [0, t] and the second in
   * [t, u], join into one run in [0, u] that never decreases.
   */
  lemma JoinRuns(before: seq<Event>, more: seq<Event>, all: seq<Event>, t: real, u: real)
    requires all == before + more && 0.0 <= t <= u
    requires NonDecreasing(before) && NonDecreasing(more)
    requires Within(before, 0.0, t) && Within(more, t, u)
    ensures NonDecreasing(all)
    ensures Within(all, 0.0, u)
  {
    forall e | e in all ensures 0.0 <= e.percent <= u {
      assert e in before || e in more;
    }
    forall i, j | 0 <= i < j < |all| ensures all[i].percent <= all[j].percent {
      if j < |before| {
        assert all[i] == before[i] && all[j] == before[j];
      } else if i >= |before| {
        assert all[i] == more[i - |before|] && all[j] == more[j - |before|];
      } else {
        assert all[i] == before[i] && before[i] in before;
        assert all[j] == more[j - |before|] && more[j - |before|] in more;
      }
    }
  }

  lemma FileEventsBounded(b: Batch, open: Opener, i: nat)
    requires i < |b.files|
    ensures NonDecreasing(FileEvents(b, open, i))
    ensures Within(FileEvents(b, open, i), Percent(i, |b.files|), Percent(i + 1, |b.files|))
  {
    PercentMonotone(i, i + 1, |b.files|);
  }

  lemma {:induction false} EventsUpToBounded(b: Batch, open: Opener, k: nat)
    requires 0 < |b.files| && k <= |b.files|
    ensures NonDecreasing(EventsUpTo(b, open, k))
    ensures Within(EventsUpTo(b, open, k), 0.0, Percent(k, |b.files|))
  {
    var n := |b.files|;
    if k > 0 {
      EventsUpToBounded(b, open, k - 1);
      var before, more := EventsUpTo(b, open, k - 1), FileEvents(b, open, k - 1);
      var all := EventsUpTo(b, open, k);
      PercentBounds(k - 1, n);
      PercentMonotone(k - 1, k, n);
      FileEventsBounded(b, open, k - 1);
      JoinRuns(before, more, all, Percent(k - 1, n), Percent(k, n));
    }
  }

  /**
   * The progress trace: every percentage lies in [0, 100], they never
   * decrease, and the last callback reports 100 with the outcome of the
   * whole batch.
   */
  lemma ProgressTrace(b: Batch, open: Opener, years: YearReader)
    ensures var (d, _, es) := LoadResult(b, open, years);
      |es| > 0 &&
      NonDecreasing(es) &&
      (forall e :: e in es ==> 0.0 <= e.percent <= 100.0) &&
      es[|es| - 1] == Event(100.0, if |b.files| == 0 then NothingToLoad else Finished(|d|))
  {
    var n := |b.files|;
    if n > 0 {
      EventsUpToBounded(b, open, n);
      PercentBounds(n, n);
      var es := LoadResult(b, open, years).2;
      var before := EventsUpTo(b, open, n);
      assert es == before + [Event(100.0, Finished(|StoredUpTo(b, open, n)|))];
      assert forall i :: 0 <= i < |before| ==> es[i] == before[i];
      assert forall i :: 0 <= i < |before| ==> es[i].percent <= 100.0 by {
        forall i | 0 <= i < |before| ensures es[i].percent <= 100.0 {
          assert before[i] in before;
        }
      }
    }
  }

  /**
   * The last status text: "No files to load" for an empty list, otherwise
   * the number of arrays actually stored.
   */
  lemma FinalMessage(b: Batch, open: Opener, years: YearReader, mb: real -> string)
    ensures var (d, _, es) := LoadResult(b, open, years);
      |es| > 0 &&
      Message(es[|es| - 1].status, mb) ==
        if |b.files| == 0 then "No files to load" else "Loaded " + NatToString(|d|) + " datasets successfully"
  {
    ProgressTrace(b, open, years);
  }

  /** Before file `i`, the callback reports `(i / total) * 100`. */
  lemma {:induction false} LoadingEventAt(b: Batch, open: Opener, k: nat, i: nat)
    requires i < k <= |b.files|
    ensures exists j :: (0 <= j < |EventsUpTo(b, open, k)| &&
      EventsUpTo(b, open, k)[j] == Event(Percent(i, |b.files|),
        Loading(b.files[i].model, b.files[i].experiment, b.files[i].sizeBytes as real / 1048576.0)))
  {
    var before := EventsUpTo(b, open, k - 1);
    var all := EventsUpTo(b, open, k);
    assert all == before + FileEvents(b, open, k - 1);
    if i < k - 1 {
      LoadingEventAt(b, open, k - 1, i);
      var j :| 0 <= j < |before| && before[j] == Event(Percent(i, |b.files|),
        Loading(b.files[i].model, b.files[i].experiment, b.files[i].sizeBytes as real / 1048576.0));
      assert all[j] == before[j];
    } else {
      assert all[|before|] == FileEvents(b, open, k - 1)[0];
    }
  }

  /** The mapping's keys are exactly the keys of the files that were stored. */
  lemma {:induction false} StoredKeys(b: Batch, open: Opener, k: nat, key: string)
    requires k <= |b.files|
    ensures key in Keys(StoredUpTo(b, open, k)) <==>
      exists i :: 0 <= i < k && b.files[i].key == key && OutcomeOf(b, open, b.files[i]).Stored?
  {
    if k > 0 {
      StoredKeys(b, open, k - 1, key);
      var d := StoredUpTo(b, open, k - 1);
      var f := b.files[k - 1];
      match OutcomeOf(b, open, f)
      case Rejected(_) =>
      case Stored(data) =>
        var d' := Put(d, f.key, Sanitize(data, b.sentinels));
        assert forall x :: x in Keys(d') <==> x in Keys(d) || x == f.key by {
          if f.key !in Keys(d) {
            assert Keys(d') == Keys(d) + [f.key];
          }
        }
    }
  }

  /** Each stored array is a stored file's decoded array with its sentinels rewritten. */
  lemma {:induction false} StoredValues(b: Batch, open: Opener, k: nat, key: string, a: DataArray)
    requires k <= |b.files| && Get(StoredUpTo(b, open, k), key) == Some(a)
    ensures exists i :: (0 <= i < k && b.files[i].key == key &&
      OutcomeOf(b, open, b.files[i]).Stored? &&
      a == Sanitize(OutcomeOf(b, open, b.files[i]).data, b.sentinels))
  {
    var d := StoredUpTo(b, open, k - 1);
    var f := b.files[k - 1];
    match OutcomeOf(b, open, f)
    case Rejected(_) =>
      StoredValues(b, open, k - 1, key, a);
    case Stored(data) =>
      GetPut(d, f.key, Sanitize(data, b.sentinels), key);
      if key != f.key {
        StoredValues(b, open, k - 1, key, a);
      }
  }

  // ---------------------------------------------------------------------
  // Colour range and map
  // ---------------------------------------------------------------------

  datatype Colormap = RdBuR | Blues | BluesR | Viridis {
    function Name(): string {
      match this
      case RdBuR => "RdBu_r"
      case Blues => "Blues"
      case BluesR => "Blues_r"
      case Viridis => "viridis"
    }
  }

  /** The result of `calculate_global_ranges`. */
  datatype ColorRange = ColorRange(vmin: Option<real>, vmax: Option<real>, cmap: Colormap)

  function Abs(x: real): real {
    if x < 0.0 then -x else x
  }

  /**
   * The colour scale for a percentile range: symmetric around zero when the
   * range crosses zero, pinned to zero when it is close to zero on one
   * side, unchanged otherwise.
   */
  function ChooseColormap(vmin: real, vmax: real): (r: (real, real, Colormap))
    ensures r.2 == RdBuR <==> vmin < 0.0 < vmax
    ensures r.2 == RdBuR ==> r.0 == -r.1 && r.0 <= vmin && vmax <= r.1 && (r.0 == vmin || r.1 == vmax)
    ensures r.2 == Blues ==> r.0 == 0.0 && r.1 == vmax && Abs(vmin) < 1.0 && Abs(vmin) < Abs(vmax)
    ensures r.2 == BluesR ==> r.1 == 0.0 && r.0 == vmin && Abs(vmax) < 1.0 && Abs(vmax) < Abs(vmin)
    ensures r.2 == Viridis ==> r.0 == vmin && r.1 == vmax
    ensures vmin <= vmax ==> r.0 <= vmin && vmax <= r.1
    ensures vmin <= vmax && r.2 == Blues ==> 0.0 <= vmin < 1.0 && 0.0 < vmax
    ensures vmin <= vmax && r.2 == BluesR ==> vmin < 0.0 && -1.0 < vmax <= 0.0
  {
    if vmin < 0.0 && vmax > 0.0 then
      var m := if Abs(vmin) >= Abs(vmax) then Abs(vmin) else Abs(vmax);
      (-m, m, RdBuR)
    else if Abs(vmax) > Abs(vmin) && Abs(vmin) < 1.0 then
      (0.0, vmax, Blues)
    else if Abs(vmin) > Abs(vmax) && Abs(vmax) < 1.0 then
      (vmin, 0.0, BluesR)
    else
      (vmin, vmax, Viridis)
  }

  /** The percentile, `np.percentile(values, p)`. */
  type Percentile = (seq<real>, real) -> real

  /** The random draw of 1,000,000 values from a larger sample. */
  type Sampler = seq<real> -> seq<real>

  ghost predicate MonotoneInRank(pct: Percentile) {
    forall s: seq<real>, p: real, q: real {:trigger pct(s, p), pct(s, q)} :: p <= q ==> pct(s, p) <= pct(s, q)
  }

  function FiniteValue(x: Num): Option<real> {
    if x.Finite? then Some(x.v) else None
  }

  /** The finite values of one array, subsampled when there are more than a million. */
  function SampleOf(a: DataArray, sample: Sampler): seq<real> {
    var valid := FilterMap(a.values, FiniteValue);
    if |valid| > 1000000 then sample(valid) else valid
  }

  /** The values gathered from the first `k` arrays. */
  function GatheredUpTo(datasets: Dict<string, DataArray>, k: nat, sample: Sampler): seq<real>
    requires k <= |datasets|
  {
    if k == 0 then [] else GatheredUpTo(datasets, k - 1, sample) + SampleOf(datasets[k - 1].1, sample)
  }

  /** What `calculate_global_ranges` returns. */
  function GlobalRanges(datasets: Dict<string, DataArray>, low: real, high: real, pct: Percentile, sample: Sampler): (r: ColorRange)
    ensures r.vmin.Some? <==> r.vmax.Some?
    ensures r.vmin.None? ==> r.cmap == Viridis
    ensures r.vmin.None? <==> |GatheredUpTo(datasets, |datasets|, sample)| == 0
    ensures r.vmin.Some? && low <= high && MonotoneInRank(pct) ==> r.vmin.value <= r.vmax.value
  {
    var all := GatheredUpTo(datasets, |datasets|, sample);
    if |all| == 0 then ColorRange(None, None, Viridis)
    else
      var (lo, hi, cmap) := ChooseColormap(pct(all, low), pct(all, high));
      assert low <= high && MonotoneInRank(pct) ==> pct(all, low) <= pct(all, high);
      ColorRange(Some(lo), Some(hi), cmap)
  }

  /** Every value of the array is NaN or infinite. */
  predicate NoFinite(a: DataArray) {
    forall j :: 0 <= j < |a.values| ==> !a.values[j].Finite?
  }

  /** Arrays without a finite value contribute nothing to the colour range. */
  lemma NoFiniteNoRange(datasets: Dict<string, DataArray>, k: nat, sample: Sampler)
    requires k <= |datasets|
    requires forall i :: 0 <= i < k ==> NoFinite(datasets[i].1)
    ensures GatheredUpTo(datasets, k, sample) == []
  {
    NoFiniteBelow(datasets, k);
    NoSamplesNoRange(datasets, k, sample);
  }

  /** The first `k` arrays hold no finite value. */
  predicate NoFiniteUpTo(datasets: Dict<string, DataArray>, k: nat)
    requires k <= |datasets|
  {
    k == 0 || (NoFiniteUpTo(datasets, k - 1) && NoFinite(datasets[k - 1].1))
  }

  lemma {:induction false} NoFiniteBelow(datasets: Dict<string, DataArray>, k: nat)
    requires k <= |datasets|
    requires forall i :: 0 <= i < k ==> NoFinite(datasets[i].1)
    ensures NoFiniteUpTo(datasets, k)
  {
    if k > 0 {
      NoFiniteBelow(datasets, k - 1);
    }
  }

  lemma {:induction false} NoSamplesNoRange(datasets: Dict<string, DataArray>, k: nat, sample: Sampler)
    requires k <= |datasets|
    requires NoFiniteUpTo(datasets, k)
    ensures GatheredUpTo(datasets, k, sample) == []
  {
    if k > 0 {
      NoSamplesNoRange(datasets, k - 1, sample);
      NoFiniteNoSample(datasets[k - 1].1, sample);
      GatheredStep(datasets, k - 1, sample, []);
    }
  }

  lemma GatheredStep(datasets: Dict<string, DataArray>, i: nat, sample: Sampler, piece: seq<real>)
    requires i < |datasets| && piece == SampleOf(datasets[i].1, sample)
    ensures GatheredUpTo(datasets, i + 1, sample) == GatheredUpTo(datasets, i, sample) + piece
  {
  }

  lemma NoFiniteNoSample(a: DataArray, sample: Sampler)
    requires NoFinite(a)
    ensures SampleOf(a, sample) == []
  {
    NoFiniteValues(a.values);
  }

  lemma {:induction false} NoFiniteValues(vals: seq<Num>)
    requires forall j :: 0 <= j < |vals| ==> !vals[j].Finite?
    ensures FilterMap(vals, FiniteValue) == []
  {
    if |vals| > 0 {
      NoFiniteValues(vals[..|vals| - 1]);
    }
  }

  /**
   * What `np.random.choice(len(v), size=1_000_000, replace=False)` promises
   * of the draw: exactly a million of the values, none taken twice.
   */
  ghost predicate DrawsWithoutReplacement(sample: Sampler) {
    forall v: seq<real> :: |v| > 1000000 ==> |sample(v)| == 1000000 && multiset(sample(v)) <= multiset(v)
  }

  /** An array with a finite value contributes at least one value. */
  lemma FiniteSampled(a: DataArray, j: nat, sample: Sampler)
    requires DrawsWithoutReplacement(sample)
    requires j < |a.values| && a.values[j].Finite?
    ensures |SampleOf(a, sample)| > 0
  {
    FilterMapMember(a.values, FiniteValue, a.values[j].v);
  }

  /** What the first `k` arrays gather includes the sample of each of them. */
  lemma {:induction false} GatheredIncludes(datasets: Dict<string, DataArray>, i: nat, k: nat, sample: Sampler)
    requires i < k <= |datasets|
    ensures |GatheredUpTo(datasets, k, sample)| >= |SampleOf(datasets[i].1, sample)|
    decreases k
  {
    GatheredStep(datasets, k - 1, sample, SampleOf(datasets[k - 1].1, sample));
    if i < k - 1 {
      GatheredIncludes(datasets, i, k - 1, sample);
    }
  }

  /**
   * With a draw that keeps a million values, there is no colour range
   * exactly when no array holds a finite value.
   */
  lemma NoRangeIffNoFinite(datasets: Dict<string, DataArray>, low: real, high: real, pct: Percentile, sample: Sampler)
    requires DrawsWithoutReplacement(sample)
    ensures GlobalRanges(datasets, low, high, pct, sample).vmin.None? <==>
      forall i :: 0 <= i < |datasets| ==> NoFinite(datasets[i].1)
  {
    if forall i :: 0 <= i < |datasets| ==> NoFinite(datasets[i].1) {
      NoFiniteNoRange(datasets, |datasets|, sample);
    } else {
      var i :| 0 <= i < |datasets| && !NoFinite(datasets[i].1);
      var j :| 0 <= j < |datasets[i].1.values| && datasets[i].1.values[j].Finite?;
      FiniteSampled(datasets[i].1, j, sample);
      GatheredIncludes(datasets, i, |datasets|, sample);
    }
  }

  /** The finite values of one file, subsampled when there are more than a million. */
  method FiniteSample(a: DataArray, sample: Sampler) returns (valid: seq<real>)
    ensures valid == SampleOf(a, sample)
  {
    valid := FilterMap(a.values, FiniteValue);
    if |valid| > 1000000 {
      valid := sample(valid);
    }
  }

  /** The gathering loop of `calculate_global_ranges`: every file's sample, in order. */
  method GatherAll(datasets: Dict<string, DataArray>, sample: Sampler) returns (all: seq<real>)
    ensures all == GatheredUpTo(datasets, |datasets|, sample)
  {
    all := [];
    var i := 0;
    while i < |datasets|
      invariant 0 <= i <= |datasets|
      invariant all == GatheredUpTo(datasets, i, sample)
    {
      var valid := FiniteSample(datasets[i].1, sample);
      if |valid| > 0 {
        all := all + valid;
      }
      GatheredStep(datasets, i, sample, valid);
      i := i + 1;
    }
  }

  /** `calculate_global_ranges`: gather finite values from every array, then choose the scale. */
  method CalculateGlobalRanges(datasets: Dict<string, DataArray>, low: real, high: real, pct: Percentile, sample: Sampler)
    returns (r: ColorRange)
    ensures r == GlobalRanges(datasets, low, high, pct, sample)
  {
    if |datasets| == 0 {
      return ColorRange(None, None, Viridis);
    }
    var all := GatherAll(datasets, sample);
    if |all| == 0 {
      return ColorRange(None, None, Viridis);
    }
    var vmin := pct(all, low);
    var vmax := pct(all, high);
    var (lo, hi, cmap) := ChooseColormap(vmin, vmax);
    r := ColorRange(Some(lo), Some(hi), cmap);
  }

  // ---------------------------------------------------------------------
  // Coordinate extent
  // ---------------------------------------------------------------------

  /** `(x_min, x_max), (y_min, y_max)`. */
  type Extent = ((real, real), (real, real))

  /**
   * `get_coordinate_ranges`: the first array's x and y extent, or its grid
   * size when it lacks either coordinate. `None` where the source raises:
   * an empty coordinate, or fewer than two dimensions.
   */
  function CoordinateRanges(datasets: Dict<string, DataArray>): (r: Option<Extent>)
    ensures |datasets| == 0 ==> r == Some(((0.0, 1.0), (0.0, 1.0)))
    ensures |datasets| > 0 && "x" in datasets[0].1.coords && "y" in datasets[0].1.coords ==>
      (r.Some? <==> |datasets[0].1.coords["x"]| > 0 && |datasets[0].1.coords["y"]| > 0)
    ensures |datasets| > 0 && r.Some? && "x" in datasets[0].1.coords && "y" in datasets[0].1.coords ==>
      var xs := datasets[0].1.coords["x"];
      var ys := datasets[0].1.coords["y"];
      r.value.0.0 in xs && r.value.0.1 in xs && r.value.1.0 in ys && r.value.1.1 in ys &&
      (forall j :: 0 <= j < |xs| ==> r.value.0.0 <= xs[j] <= r.value.0.1) &&
      (forall j :: 0 <= j < |ys| ==> r.value.1.0 <= ys[j] <= r.value.1.1)
    ensures |datasets| > 0 && !("x" in datasets[0].1.coords && "y" in datasets[0].1.coords) ==>
      var shape := datasets[0].1.shape;
      (r.Some? <==> |shape| >= 2) &&
      (r.Some? ==> r.value == ((0.0, shape[|shape| - 1] as real), (0.0, shape[|shape| - 2] as real)))
  {
    if |datasets| == 0 then Some(((0.0, 1.0), (0.0, 1.0)))
    else
      var first := datasets[0].1;
      if "x" in first.coords && "y" in first.coords then
        var xs := first.coords["x"];
        var ys := first.coords["y"];
        if |xs| == 0 || |ys| == 0 then None
        else Some(((MinReal(xs), MaxReal(xs)), (MinReal(ys), MaxReal(ys))))
      else if |first.shape| < 2 then None
      else
        var shape := first.shape;
        Some(((0.0, shape[|shape| - 1] as real), (0.0, shape[|shape| - 2] as real)))
  }

  /** Only the first array matters: later ones never change the extent. */
  lemma CoordinateRangesFirstOnly(first: (string, DataArray), rest: Dict<string, DataArray>)
    ensures CoordinateRanges([first] + rest) == CoordinateRanges([first])
  {
    assert ([first] + rest)[0] == first;
  }
}
