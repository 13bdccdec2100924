/** The list and index logic of the benchmark history analyser
    (benchmark_monitor.py): clamp, turning points, the guards and reflection
    padding of smooth, the grouping of benchmark records by name, and the
    selection of the range of result files. Benchmark values (numpy floats)
    are modelled as reals; only their order is ever inspected here. */
module BenchmarkMonitor {

  datatype Option<T> = None | Some(value: T)

  datatype Result<T, E> = Success(value: T) | Failure(error: E)

  /* ---------------------------------------------------------------- clamp */

  /** max(smallest, min(n, largest)). When the bounds are ordered the result
      lies between them and leaves an in-range n alone; when they are not,
      the lower bound wins. */
  function Clamp(n: int, smallest: int, largest: int): (r: int)
    ensures smallest <= largest ==> smallest <= r <= largest
    ensures smallest <= largest ==> (r == n <==> smallest <= n <= largest)
    ensures n < smallest ==> r == smallest
    ensures smallest <= largest < n ==> r == largest
    ensures largest < smallest ==> r == smallest
  {
    var m := if n < largest then n else largest;
    if smallest > m then smallest else m
  }

  /** Clamping twice is clamping once, whatever the bounds. */
  lemma ClampIdempotent(n: int, smallest: int, largest: int)
    ensures Clamp(Clamp(n, smallest, largest), smallest, largest) == Clamp(n, smallest, largest)
  {
  }

  /* -------------------------------------------------------- turning points */

  /** x[i] is a strict local maximum: larger than both neighbours. */
  predicate IsPeak(x: seq<real>, i: int)
  {
    1 <= i && i + 1 < |x| && x[i - 1] < x[i] && x[i + 1] < x[i]
  }

  /** x[i] is a strict local minimum: smaller than both neighbours. */
  predicate IsTrough(x: seq<real>, i: int)
  {
    1 <= i && i + 1 < |x| && x[i - 1] > x[i] && x[i + 1] > x[i]
  }

  predicate StrictlyIncreasing(s: seq<int>)
  {
    forall a, b :: 0 <= a < b < |s| ==> s[a] < s[b]
  }

  /** Appending an index above every element keeps a list increasing. */
  lemma AppendIncreasing(s: seq<int>, i: int)
    requires StrictlyIncreasing(s)
    requires forall k :: 0 <= k < |s| ==> s[k] < i
    ensures StrictlyIncreasing(s + [i])
  {
  }

  /** The loop over range(1, len(x) - 1): the indices of all strict local
      maxima and of all strict local minima, each list in increasing order.
      Soundness, completeness and order determine both lists uniquely. */
  method TurningPoints(x: seq<real>) returns (peaks: seq<int>, troughs: seq<int>)
    ensures forall k :: 0 <= k < |peaks| ==> IsPeak(x, peaks[k])
    ensures forall k :: 0 <= k < |troughs| ==> IsTrough(x, troughs[k])
    ensures forall i :: IsPeak(x, i) ==> i in peaks
    ensures forall i :: IsTrough(x, i) ==> i in troughs
    ensures StrictlyIncreasing(peaks) && StrictlyIncreasing(troughs)
    ensures forall i :: i in peaks ==> i !in troughs
    ensures |x| < 3 ==> peaks == [] && troughs == []
  {
    peaks := [];
    troughs := [];
    var i := 1;
    while i < |x| - 1
      invariant 1 <= i && (|x| >= 2 ==> i <= |x| - 1)
      invariant forall k :: 0 <= k < |peaks| ==> IsPeak(x, peaks[k]) && peaks[k] < i
      invariant forall k :: 0 <= k < |troughs| ==> IsTrough(x, troughs[k]) && troughs[k] < i
      invariant forall j :: j < i && IsPeak(x, j) ==> j in peaks
      invariant forall j :: j < i && IsTrough(x, j) ==> j in troughs
      invariant StrictlyIncreasing(peaks) && StrictlyIncreasing(troughs)
      invariant |x| < 3 ==> peaks == [] && troughs == []
    {
      if x[i - 1] < x[i] && x[i + 1] < x[i] {
        assert IsPeak(x, i) && !IsTrough(x, i);
        AppendIncreasing(peaks, i);
        peaks := peaks + [i];
      } else if x[i - 1] > x[i] && x[i + 1] > x[i] {
        assert IsTrough(x, i) && !IsPeak(x, i);
        AppendIncreasing(troughs, i);
        troughs := troughs + [i];
      } else {
        assert !IsPeak(x, i) && !IsTrough(x, i);
      }
      i := i + 1;
    }
    assert forall j :: j in peaks ==> IsPeak(x, j);
    assert forall j :: j in troughs ==> IsTrough(x, j);
  }

  /* ------------------------------------------------------ Python slicing */

  /** A slice bound of a step-1 slice of a length-n sequence, after Python's
      adjustment: a negative bound counts from the end, and the result is
      clipped to [0, n]. */
  function SliceBound(i: int, n: nat): (b: nat)
    ensures b <= n
    ensures 0 <= i <= n ==> b == i
    ensures i < 0 && 0 <= i + n ==> b == n + i
    ensures i + n < 0 ==> b == 0
    ensures n < i ==> b == n
  {
    if i < 0 then (if i + n < 0 then 0 else i + n)
    else if i > n then n
    else i
  }

  /** s[start:stop], Python semantics. */
  function PySlice<T>(s: seq<T>, start: int, stop: int): (r: seq<T>)
    ensures |r| <= |s|
    ensures 0 <= start <= stop <= |s| ==> r == s[start..stop]
    ensures SliceBound(stop, |s|) <= SliceBound(start, |s|) ==> r == []
  {
    var a := SliceBound(start, |s|);
    var b := SliceBound(stop, |s|);
    if a < b then s[a..b] else []
  }

  /** A slice bound of a step-(-1) slice of a length-n sequence, after
      Python's adjustment: a negative bound counts from the end, and the
      result is clipped to [-1, n - 1], where -1 means "past the front". */
  function SliceBoundDown(i: int, n: nat): (b: int)
    ensures -1 <= b <= n - 1
    ensures 0 <= i < n ==> b == i
    ensures i < 0 && 0 <= i + n ==> b == n + i
    ensures i + n < 0 ==> b == -1
    ensures n <= i ==> b == n - 1
  {
    if i < 0 then (if i + n < 0 then -1 else i + n)
    else if i >= n then n - 1
    else i
  }

  /** s[a], s[a - 1], ..., s[b + 1]. */
  function Descending<T>(s: seq<T>, a: int, b: int): (r: seq<T>)
    requires -1 <= b && a < |s|
    ensures |r| == if a <= b then 0 else a - b
    ensures forall k :: 0 <= k < |r| ==> r[k] == s[a - k]
    decreases a - b
  {
    if a <= b then [] else [s[a]] + Descending(s, a - 1, b)
  }

  /** s[start:stop:-1], Python semantics. */
  function PySliceDown<T>(s: seq<T>, start: int, stop: int): (r: seq<T>)
  {
    Descending(s, SliceBoundDown(start, |s|), SliceBoundDown(stop, |s|))
  }

  /* --------------------------------------------------------------- smooth */

  /** The window names smooth accepts. */
  const Windows: set<string> := {"flat", "hanning", "hamming", "bartlett", "blackman"}

  datatype SmoothError = InputTooShort | UnknownWindow

  /** What smooth does with an accepted input: hand x back, or convolve the
      padded signal with the named window of the given length. The
      convolution itself is numeric and not modelled; OutputLength gives the
      length of its 'valid' result. */
  datatype Smoothing =
    | Unchanged(values: seq<real>)
    | Convolved(padded: seq<real>, window: string, windowLen: int)

  function OutputLength(sm: Smoothing): int
  {
    match sm
    case Unchanged(values) => |values|
    case Convolved(padded, _, windowLen) => |padded| - windowLen + 1
  }

  /** np.r_[x[window_len-1:0:-1], x, x[-2:-window_len-1:-1]]: x with
      window_len - 1 values mirrored about each end. */
  function ReflectPad(x: seq<real>, windowLen: int): seq<real>
  {
    PySliceDown(x, windowLen - 1, 0) + x + PySliceDown(x, -2, -windowLen - 1)
  }

  /** s in reverse order. */
  function Reverse<T>(s: seq<T>): (r: seq<T>)
    ensures |r| == |s|
    ensures forall k :: 0 <= k < |s| ==> r[k] == s[|s| - 1 - k]
  {
    if |s| == 0 then [] else Reverse(s[1..]) + [s[0]]
  }

  /** Under smooth's guards the padding mirrors x about x[0] and about
      x[n-1], without repeating either end point: x[1..window_len] reversed,
      then x, then x[n-window_len..n-1] reversed. */
  lemma ReflectPadShape(x: seq<real>, windowLen: int)
    requires 3 <= windowLen <= |x|
    ensures ReflectPad(x, windowLen) ==
              Reverse(x[1..windowLen]) + x + Reverse(x[|x| - windowLen .. |x| - 1])
    ensures |ReflectPad(x, windowLen)| == |x| + 2 * (windowLen - 1)
  {
    var n := |x|;
    assert Descending(x, windowLen - 1, 0) == Reverse(x[1..windowLen]);
    assert Descending(x, n - 2, n - windowLen - 1) == Reverse(x[n - windowLen .. n - 1]);
  }

  /** The guards of smooth, in the source's order: a too-short input is
      refused even when the window is shorter than 3; otherwise a window
      shorter than 3 hands x back unchanged, even with an unknown window
      name; otherwise an unknown name is refused. */
  function Smooth(x: seq<real>, windowLen: int, window: string): (r: Result<Smoothing, SmoothError>)
    ensures |x| < windowLen ==> r == Failure(InputTooShort)
    ensures |x| >= windowLen && windowLen < 3 ==> r == Success(Unchanged(x))
    ensures |x| >= windowLen >= 3 && window !in Windows ==> r == Failure(UnknownWindow)
    ensures r.Failure? <==> |x| < windowLen || (3 <= windowLen && window !in Windows)
  {
    if |x| < windowLen then Failure(InputTooShort)
    else if windowLen < 3 then Success(Unchanged(x))
    else if window !in Windows then Failure(UnknownWindow)
    else Success(Convolved(ReflectPad(x, windowLen), window, windowLen))
  }

  /** smooth called as main calls it: window_len given, window left at its
      default 'hanning'. An unknown window name can then never be the
      failure, and the call fails exactly when x is shorter than the window. */
  function SmoothHanning(x: seq<real>, windowLen: int): (r: Result<Smoothing, SmoothError>)
    ensures r != Failure(UnknownWindow)
    ensures r.Failure? <==> |x| < windowLen
    ensures 3 <= windowLen <= |x| ==> r.Success? && r.value.Convolved? && r.value.window == "hanning"
  {
    Smooth(x, windowLen, "hanning")
  }

  /** A convolved result pads x by window_len - 1 on each side, and the
      'valid' convolution then has n + window_len - 1 values; an unchanged
      result keeps n. */
  lemma SmoothOutputLength(x: seq<real>, windowLen: int, window: string)
    requires Smooth(x, windowLen, window).Success?
    ensures var sm := Smooth(x, windowLen, window).value;
            && (sm.Convolved? ==>
                  |sm.padded| == |x| + 2 * (windowLen - 1) &&
                  OutputLength(sm) == |x| + windowLen - 1)
            && (sm.Unchanged? ==> OutputLength(sm) == |x|)
  {
    if 3 <= windowLen {
      ReflectPadShape(x, windowLen);
    }
  }

  /* ------------------------------------------------- parsing result files */

  /** One entry of a result file's "benchmarks" list: its "name" (if
      present) and its numeric fields. */
  datatype Record = Record(name: Option<string>, metrics: map<string, real>)

  /** A result file as json.load sees it: unreadable (no such file, no
      JSON, no "benchmarks" list) or the list of records. */
  datatype BenchmarkFile = Unreadable | Records(records: seq<Record>)

  /** A (name, metric value) pair read from a record. */
  datatype Entry = Entry(name: string, value: real)

  /** Neither b['name'] nor b[metric] raises on this record. */
  predicate Readable(rec: Record, metric: string)
  {
    rec.name.Some? && metric in rec.metrics
  }

  /** The entries read from recs before the first record that raises. */
  function ReadEntries(recs: seq<Record>, metric: string): (es: seq<Entry>)
    ensures |es| <= |recs|
    ensures forall j :: 0 <= j < |es| ==>
              Readable(recs[j], metric) && es[j] == Entry(recs[j].name.value, recs[j].metrics[metric])
    ensures |es| < |recs| ==> !Readable(recs[|es|], metric)
    decreases |recs|
  {
    if |recs| == 0 || !Readable(recs[0], metric) then []
    else [Entry(recs[0].name.value, recs[0].metrics[metric])] + ReadEntries(recs[1..], metric)
  }

  /** The values recorded under name, [] for a name not yet seen. */
  function Lookup(m: map<string, seq<real>>, name: string): seq<real>
  {
    if name in m then m[name] else []
  }

  /** Lines 51-54: a first-seen name gets a singleton list, a known one gets
      the value appended; every other entry is untouched. */
  function Append(m: map<string, seq<real>>, e: Entry): (r: map<string, seq<real>>)
    ensures r.Keys == m.Keys + {e.name}
    ensures r[e.name] == Lookup(m, e.name) + [e.value]
    ensures forall n :: n in m && n != e.name ==> r[n] == m[n]
  {
    if e.name !in m then m[e.name := [e.value]] else m[e.name := m[e.name] + [e.value]]
  }

  /** The map after appending every entry of es, in order. */
  function Grouped(m: map<string, seq<real>>, es: seq<Entry>): map<string, seq<real>>
    decreases |es|
  {
    if |es| == 0 then m
    else Append(Grouped(m, es[..|es| - 1]), es[|es| - 1])
  }

  lemma GroupedSnoc(m: map<string, seq<real>>, es: seq<Entry>, i: int)
    requires 0 <= i < |es|
    ensures Grouped(m, es[..i + 1]) == Append(Grouped(m, es[..i]), es[i])
  {
    assert es[..i + 1][..i] == es[..i];
  }

  /** The values that es holds for name, in order. */
  function ValuesFor(es: seq<Entry>, name: string): seq<real>
    decreases |es|
  {
    if |es| == 0 then []
    else
      ValuesFor(es[..|es| - 1], name)
        + (if es[|es| - 1].name == name then [es[|es| - 1].value] else [])
  }

  /** Grouping appends each name's values, in order, to what the map held
      (for a name not yet present, to the empty list). */
  lemma {:induction false} GroupedValues(m: map<string, seq<real>>, es: seq<Entry>, name: string)
    ensures Lookup(Grouped(m, es), name) == Lookup(m, name) + ValuesFor(es, name)
    decreases |es|
  {
    if |es| > 0 {
      GroupedValues(m, es[..|es| - 1], name);
    }
  }

  /** After grouping, a name is present exactly when it was before or some
      entry carries it. */
  lemma {:induction false} GroupedNames(m: map<string, seq<real>>, es: seq<Entry>, name: string)
    ensures name in Grouped(m, es) <==> name in m || exists j :: 0 <= j < |es| && es[j].name == name
    decreases |es|
  {
    if |es| > 0 {
      var init := es[..|es| - 1];
      GroupedNames(m, init, name);
      if exists j :: 0 <= j < |es| && es[j].name == name {
        var j :| 0 <= j < |es| && es[j].name == name;
        if j < |init| {
          assert init[j] == es[j];
        }
      }
      if exists j :: 0 <= j < |init| && init[j].name == name {
        var j :| 0 <= j < |init| && init[j].name == name;
        assert es[j] == init[j];
      }
    }
  }

  /** Grouping two runs of entries is grouping their concatenation. */
  lemma {:induction false} GroupedConcat(m: map<string, seq<real>>, a: seq<Entry>, b: seq<Entry>)
    ensures Grouped(m, a + b) == Grouped(Grouped(m, a), b)
    decreases |b|
  {
    if |b| == 0 {
      assert a + b == a;
    } else {
      GroupedConcat(m, a, b[..|b| - 1]);
      assert (a + b)[..|a + b| - 1] == a + b[..|b| - 1];
    }
  }

  /** The map after one call of parse_benchmark_file, whether it returned
      or raised: an unreadable file leaves it alone, otherwise the records
      before the first one that raises have been appended. */
  function AfterFile(m: map<string, seq<real>>, file: BenchmarkFile, metric: string): map<string, seq<real>>
  {
    match file
    case Unreadable => m
    case Records(recs) => Grouped(m, ReadEntries(recs, metric))
  }

  /** The entries whose values survive, file by file. */
  function KeptEntries(files: seq<BenchmarkFile>, metric: string): seq<Entry>
    decreases |files|
  {
    if |files| == 0 then []
    else
      var rest := KeptEntries(files[..|files| - 1], metric);
      match files[|files| - 1]
      case Unreadable => rest
      case Records(recs) => rest + ReadEntries(recs, metric)
  }

  /** The map after main's loop: each file's partial update persists. */
  function AfterFiles(m: map<string, seq<real>>, files: seq<BenchmarkFile>, metric: string): map<string, seq<real>>
    decreases |files|
  {
    if |files| == 0 then m
    else AfterFile(AfterFiles(m, files[..|files| - 1], metric), files[|files| - 1], metric)
  }

  /** Swallowing the exceptions amounts to grouping every entry read
      before its file's failure, in file order. */
  lemma {:induction false} AfterFilesGroupsKept(m: map<string, seq<real>>, files: seq<BenchmarkFile>, metric: string)
    ensures AfterFiles(m, files, metric) == Grouped(m, KeptEntries(files, metric))
    decreases |files|
  {
    if |files| > 0 {
      var init := files[..|files| - 1];
      AfterFilesGroupsKept(m, init, metric);
      match files[|files| - 1]
      case Unreadable =>
      case Records(recs) =>
        GroupedConcat(m, KeptEntries(init, metric), ReadEntries(recs, metric));
    }
  }

  /** Per benchmark name: the values collected from all files are what the
      map held followed by the name's values among the kept entries. */
  lemma AfterFilesValues(m: map<string, seq<real>>, files: seq<BenchmarkFile>, metric: string, name: string)
    ensures Lookup(AfterFiles(m, files, metric), name) ==
              Lookup(m, name) + ValuesFor(KeptEntries(files, metric), name)
  {
    AfterFilesGroupsKept(m, files, metric);
    GroupedValues(m, KeptEntries(files, metric), name);
  }

  /** The benchmarks dictionary that main builds and parse_benchmark_file
      fills in place. */
  class BenchmarkHistory {
    var benchmarks: map<string, seq<real>>

    constructor()
      ensures benchmarks == map[]
    {
      benchmarks := map[];
    }

    /** parse_benchmark_file: appends each record's metric under its name;
        raises (ok == false) on an unreadable file or on the first record
        without a name or the metric, keeping the appends made before. */
    method ParseBenchmarkFile(file: BenchmarkFile, metric: string) returns (ok: bool)
      modifies this
      ensures benchmarks == AfterFile(old(benchmarks), file, metric)
      ensures ok <==> file.Records? && |ReadEntries(file.records, metric)| == |file.records|
    {
      if file.Unreadable? {
        return false;
      }
      var recs := file.records;
      ghost var es := ReadEntries(recs, metric);
      ghost var start := benchmarks;
      var i := 0;
      while i < |recs|
        invariant 0 <= i <= |es|
        invariant benchmarks == Grouped(start, es[..i])
      {
        var b := recs[i];
        if b.name.None? || metric !in b.metrics {
          assert es[..i] == es;
          return false;
        }
        var name := b.name.value;
        GroupedSnoc(start, es, i);
        ghost var next := Append(benchmarks, es[i]);
        if name !in benchmarks {
          benchmarks := benchmarks[name := [b.metrics[metric]]];
        } else {
          benchmarks := benchmarks[name := benchmarks[name] + [b.metrics[metric]]];
        }
        assert benchmarks == next;
        i := i + 1;
      }
      assert es[..i] == es;
      return true;
    }

    /** main's loop over the selected files, swallowing each failure. */
    method CollectBenchmarks(files: seq<BenchmarkFile>, metric: string)
      modifies this
      ensures benchmarks == AfterFiles(old(benchmarks), files, metric)
    {
      var i := 0;
      while i < |files|
        invariant 0 <= i <= |files|
        invariant benchmarks == AfterFiles(old(benchmarks), files[..i], metric)
      {
        assert files[..i + 1][..i] == files[..i];
        var _ := ParseBenchmarkFile(files[i], metric);
        i := i + 1;
      }
      assert files[..i] == files;
    }
  }

  /* ------------------------------------------------------ file selection */

  /** files[:len(files)-discard] when discard is not -1. A non-positive
      count keeps every file; a count above the number of files is read as
      a negative index and wraps around. */
  function Discard<F>(files: seq<F>, discard: int): (r: seq<F>)
    ensures discard <= 0 ==> r == files
    ensures 0 <= discard <= |files| ==> r == files[..|files| - discard]
    ensures |files| < discard <= 2 * |files| ==> r == files[..2 * |files| - discard]
    ensures 2 * |files| < discard ==> r == []
  {
    if discard != -1 then PySlice(files, 0, |files| - discard) else files
  }

  /** files[fileCount-maxsamples-1:fileCount-1] with maxsamples clamped to
      [0, fileCount], when maxsamples is not 0. The newest file is always
      excluded, and nothing is left once maxsamples reaches the number of
      files or is negative. */
  function LimitSamples<F>(files: seq<F>, maxSamples: int): (r: seq<F>)
    ensures maxSamples == 0 ==> r == files
    ensures 0 < maxSamples < |files| ==>
              r == files[|files| - maxSamples - 1 .. |files| - 1] && |r| == maxSamples
    ensures maxSamples < 0 || (maxSamples != 0 && |files| <= maxSamples) ==> r == []
  {
    if maxSamples != 0 then
      var fileCount := |files|;
      var ms := Clamp(maxSamples, 0, fileCount);
      PySlice(files, fileCount - ms - 1, fileCount - 1)
    else files
  }

  /** With three files, maxsamples 3 selects nothing and maxsamples 2
      selects the two files before the newest. */
  lemma MaxSamplesDropsNewest()
    ensures LimitSamples([0, 1, 2], 3) == []
    ensures LimitSamples([0, 1, 2], 2) == [0, 1]
  {
  }

  /** The selection of the newest maxsamples files (all of them when there
      are fewer): a suffix of files, so the newest file is kept. */
  function LimitSamplesCorrected<F>(files: seq<F>, maxSamples: int): (r: seq<F>)
    ensures maxSamples == 0 ==> r == files
    ensures maxSamples > 0 ==>
              && |r| == (if maxSamples < |files| then maxSamples else |files|)
              && r == files[|files| - |r|..]
    ensures maxSamples < 0 ==> r == []
  {
    if maxSamples != 0 then files[|files| - Clamp(maxSamples, 0, |files|)..] else files
  }

  /** The range selection in main, oldest file first: an explicit
      [startindex, endindex) range wins over discard and maxsamples when
      both of its ends are given; otherwise discard, then maxsamples. */
  method SelectFiles<F>(files: seq<F>, startIndex: int, endIndex: int, discard: int, maxSamples: int)
    returns (selected: seq<F>)
    ensures startIndex != -1 && endIndex != -1 ==> selected == PySlice(files, startIndex, endIndex)
    ensures startIndex == -1 || endIndex == -1 ==>
              selected == LimitSamples(Discard(files, discard), maxSamples)
  {
    selected := files;
    if startIndex != -1 && endIndex != -1 {
      selected := PySlice(selected, startIndex, endIndex);
    } else {
      if discard != -1 {
        selected := PySlice(selected, 0, |selected| - discard);
      }
      if maxSamples != 0 {
        var fileCount := |selected|;
        var ms := Clamp(maxSamples, 0, fileCount);
        selected := PySlice(selected, fileCount - ms - 1, fileCount - 1);
      }
    }
  }
}
