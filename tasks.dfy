/** The split planner (`src/tasks.rs`): turns a mode (explicit range
    strings, or a fixed chunk size) and an input path into the ordered
    list of `SplitConfig` values that `FileSplitter.SplitFile` executes.

    The file system is not modelled: whether the input exists and is a
    regular file, how Rust's `Path` decomposes it (parent, stem,
    extension) and, in chunk mode, how many lines it has, are inputs. */
module Tasks {
  import opened Wrappers
  import opened Text
  import opened FileSplitter

  datatype SplitMode =
    | Manual(ranges: seq<string>, outputDir: Option<string>)
    | Auto(chunkSize: nat, outputDir: Option<string>)

  // ---------------------------------------------------------------------
  // parse_range_string
  // ---------------------------------------------------------------------

  function InvalidRangeError(range: string): string {
    "Invalid range '" + range + "'"
  }

  /** `parse_range_string`: `"a-b"` with `a` and `b` accepted by
      `parse::<usize>`. Neither a zero start nor `a > b` is rejected here. */
  function ParseRangeString(range: string): (r: Result<(nat, nat)>)
    ensures r.Ok? ==> exists a, b :: range == a + "-" + b
                        && ParseUsize(a) == Some(r.value.0) && ParseUsize(b) == Some(r.value.1)
  {
    var parts := Split(range, '-');
    if |parts| != 2 then Err(InvalidRangeError(range))
    else
      match ParseUsize(parts[0])
      case None => Err("Bad start")
      case Some(start) =>
        match ParseUsize(parts[1])
        case None => Err("Bad end")
        case Some(end) =>
          JoinSplit(range, '-');
          assert Join(parts, "-") == parts[0] + "-" + parts[1];
          Ok((start, end))
  }

  /** The start is parsed (and reported) before the end: a range with one
      dash whose start does not parse is "Bad start" whatever its end. */
  lemma ParseRangeErrorOrder(a: string, b: string)
    requires '-' !in a && '-' !in b
    ensures ParseUsize(a).None? ==> ParseRangeString(a + "-" + b) == Err("Bad start")
    ensures ParseUsize(a).Some? && ParseUsize(b).None? ==> ParseRangeString(a + "-" + b) == Err("Bad end")
  {
    SplitJoin([a, b], '-');
    assert Join([a, b], "-") == a + "-" + b;
  }

  /** Round trip: printing two numbers around a dash and parsing the result
      gives the numbers back, in particular for a zero start or a start
      greater than the end (those are rejected later, by `SplitConfig::new`). */
  lemma ParseRangeRoundTrip(start: nat, end: nat)
    requires start <= USIZE_MAX && end <= USIZE_MAX
    ensures ParseRangeString(NatToString(start) + "-" + NatToString(end)) == Ok((start, end))
  {
    var a, b := NatToString(start), NatToString(end);
    assert '-' !in a && '-' !in b;
    SplitJoin([a, b], '-');
    assert Join([a, b], "-") == a + "-" + b;
  }

  /** A string with a number of dashes other than one is always rejected
      as an invalid range, before either number is looked at. */
  lemma ParseRangeNeedsOneDash(range: string)
    requires |Split(range, '-')| != 2
    ensures ParseRangeString(range) == Err(InvalidRangeError(range))
  {
  }

  // ---------------------------------------------------------------------
  // generate_part_filename
  // ---------------------------------------------------------------------

  /** `Path::join` on Unix-style paths: an absolute name replaces the
      parent, an empty parent adds nothing, and a separator is inserted
      unless the parent already ends with one. */
  function JoinPath(parent: string, name: string): string {
    if |name| > 0 && name[0] == '/' then name
    else if parent == "" then name
    else if parent[|parent| - 1] == '/' then parent + name
    else parent + "/" + name
  }

  /** The file name of part number `index + 1`: `"<stem> - Part <k>"`,
      followed by `"." + ext` only when `ext` is not empty. */
  function PartName(stem: string, ext: string, index: nat): string {
    stem + " - Part " + NatToString(index + 1) + (if ext == "" then "" else "." + ext)
  }

  /** `generate_part_filename`. */
  function GeneratePartFilename(parent: string, stem: string, ext: string, index: nat): string {
    JoinPath(parent, PartName(stem, ext, index))
  }

  /** Joining a name that starts with a non-empty piece: everything after
      that piece is appended unchanged. */
  lemma JoinPathAppend(parent: string, head: string, tail: string)
    requires |head| > 0
    ensures JoinPath(parent, head + tail) == JoinPath(parent, head) + tail
  {
    var name := head + tail;
    assert name[0] == head[0];
    if head[0] == '/' {
    } else if parent == "" {
    } else if parent[|parent| - 1] == '/' {
      assert parent + name == parent + head + tail;
    } else {
      assert parent + "/" + name == parent + "/" + head + tail;
    }
  }

  lemma SameAffixes(p: string, d1: string, d2: string, e: string)
    requires p + d1 + e == p + d2 + e
    ensures d1 == d2
  {
    assert |d1| == |d2|;
    assert (p + d1 + e)[|p|..|p| + |d1|] == d1;
    assert (p + d2 + e)[|p|..|p| + |d2|] == d2;
  }

  /** The filename of part `index + 1` is a prefix that does not depend
      on the index, then the part number, then the extension. */
  lemma PartFilenameShape(parent: string, stem: string, ext: string, index: nat)
    ensures GeneratePartFilename(parent, stem, ext, index)
              == JoinPath(parent, stem + " - Part ") + NatToString(index + 1) + (if ext == "" then "" else "." + ext)
  {
    var d := NatToString(index + 1);
    var e := if ext == "" then "" else "." + ext;
    var q := stem + " - Part ";
    JoinPathAppend(parent, q, d + e);
    assert PartName(stem, ext, index) == q + (d + e);
  }

  /** Two parts of one plan never share a destination: the filenames for
      different indexes differ. */
  lemma PartFilenamesDistinct(parent: string, stem: string, ext: string, i: nat, j: nat)
    requires i != j
    ensures GeneratePartFilename(parent, stem, ext, i) != GeneratePartFilename(parent, stem, ext, j)
  {
    PartFilenameShape(parent, stem, ext, i);
    PartFilenameShape(parent, stem, ext, j);
    var p := JoinPath(parent, stem + " - Part ");
    var e := if ext == "" then "" else "." + ext;
    if GeneratePartFilename(parent, stem, ext, i) == GeneratePartFilename(parent, stem, ext, j) {
      SameAffixes(p, NatToString(i + 1), NatToString(j + 1), e);
    }
  }

  // ---------------------------------------------------------------------
  // plan_manual_split
  // ---------------------------------------------------------------------

  /** The config the loop of `plan_manual_split` builds from the range
      string at position `index`. */
  function ConfigForRange(range: string, index: nat, dir: string, stem: string, ext: string): Result<SplitConfig>
  {
    var bounds :- ParseRangeString(range);
    NewSplitConfig(bounds.0, bounds.1, GeneratePartFilename(dir, stem, ext, index))
  }

  /** What `plan_manual_split` returns: one config per range string, in
      order, or the error of the first range that fails. */
  function ManualPlan(ranges: seq<string>, dir: string, stem: string, ext: string): Result<seq<SplitConfig>>
    decreases |ranges|
  {
    if |ranges| == 0 then Ok([])
    else
      var init :- ManualPlan(ranges[..|ranges| - 1], dir, stem, ext);
      var config :- ConfigForRange(ranges[|ranges| - 1], |ranges| - 1, dir, stem, ext);
      Ok(init + [config])
  }

  /** The config built from one range string, when there is one, is
      well-formed, carries the two numbers of the string and the name of
      part `index + 1`. */
  lemma ConfigForRangeOk(range: string, index: nat, dir: string, stem: string, ext: string)
    requires ConfigForRange(range, index, dir, stem, ext).Ok?
    ensures var c := ConfigForRange(range, index, dir, stem, ext).value;
      && WellFormed(c)
      && ParseRangeString(range) == Ok((c.start, c.end))
      && c.outputPath == GeneratePartFilename(dir, stem, ext, index)
  {
  }

  /** A manual plan whose range strings all give a config succeeds. */
  lemma {:induction false} ManualPlanAllOk(ranges: seq<string>, dir: string, stem: string, ext: string)
    requires forall k :: 0 <= k < |ranges| ==> ConfigForRange(ranges[k], k, dir, stem, ext).Ok?
    ensures ManualPlan(ranges, dir, stem, ext).Ok?
    decreases |ranges|
  {
    if |ranges| > 0 {
      var n := |ranges| - 1;
      var init := ranges[..n];
      forall k | 0 <= k < n
        ensures ConfigForRange(init[k], k, dir, stem, ext).Ok?
      {
        assert init[k] == ranges[k];
      }
      ManualPlanAllOk(init, dir, stem, ext);
    }
  }

  /** A successful manual plan has one config per range string, in order:
      the k-th is the config of the k-th string. */
  lemma {:induction false} ManualPlanValues(ranges: seq<string>, dir: string, stem: string, ext: string)
    requires ManualPlan(ranges, dir, stem, ext).Ok?
    ensures var plan := ManualPlan(ranges, dir, stem, ext).value;
      && |plan| == |ranges|
      && forall k :: 0 <= k < |ranges| ==>
           ConfigForRange(ranges[k], k, dir, stem, ext) == Ok(plan[k])
    decreases |ranges|
  {
    if |ranges| > 0 {
      var n := |ranges| - 1;
      var init := ranges[..n];
      ManualPlanValues(init, dir, stem, ext);
      var plan, initPlan := ManualPlan(ranges, dir, stem, ext).value, ManualPlan(init, dir, stem, ext).value;
      assert plan == initPlan + [ConfigForRange(ranges[n], n, dir, stem, ext).value];
      forall k | 0 <= k < n
        ensures ConfigForRange(ranges[k], k, dir, stem, ext) == Ok(plan[k])
      {
        assert init[k] == ranges[k] && plan[k] == initPlan[k];
      }
    }
  }

  /** A manual plan succeeds exactly when every range string gives a
      config (parses, and passes `SplitConfig::new`). */
  lemma ManualPlanOkIff(ranges: seq<string>, dir: string, stem: string, ext: string)
    ensures ManualPlan(ranges, dir, stem, ext).Ok?
        <==> forall k :: 0 <= k < |ranges| ==> ConfigForRange(ranges[k], k, dir, stem, ext).Ok?
  {
    if ManualPlan(ranges, dir, stem, ext).Ok? {
      ManualPlanValues(ranges, dir, stem, ext);
    } else if forall k :: 0 <= k < |ranges| ==> ConfigForRange(ranges[k], k, dir, stem, ext).Ok? {
      ManualPlanAllOk(ranges, dir, stem, ext);
    }
  }

  /** The k-th config of a successful manual plan is well-formed, carries
      the numbers of the k-th range string and the name of part k + 1. */
  lemma ManualPlanConfigs(ranges: seq<string>, dir: string, stem: string, ext: string)
    requires ManualPlan(ranges, dir, stem, ext).Ok?
    ensures var plan := ManualPlan(ranges, dir, stem, ext).value;
      && |plan| == |ranges|
      && forall k :: 0 <= k < |ranges| ==>
           && WellFormed(plan[k])
           && ParseRangeString(ranges[k]) == Ok((plan[k].start, plan[k].end))
           && plan[k].outputPath == GeneratePartFilename(dir, stem, ext, k)
  {
    ManualPlanValues(ranges, dir, stem, ext);
    forall k | 0 <= k < |ranges| {
      ConfigForRangeOk(ranges[k], k, dir, stem, ext);
    }
  }

  /** A failing manual plan reports the error of the first range string
      that fails; every range before it was fine. */
  lemma {:induction false} ManualPlanFirstError(ranges: seq<string>, dir: string, stem: string, ext: string)
    requires ManualPlan(ranges, dir, stem, ext).Err?
    ensures exists j :: 0 <= j < |ranges|
              && (forall k :: 0 <= k < j ==> ConfigForRange(ranges[k], k, dir, stem, ext).Ok?)
              && ConfigForRange(ranges[j], j, dir, stem, ext).Err?
              && ManualPlan(ranges, dir, stem, ext).error == ConfigForRange(ranges[j], j, dir, stem, ext).error
    decreases |ranges|
  {
    var n := |ranges| - 1;
    var init := ranges[..n];
    assert forall k :: 0 <= k < n ==> init[k] == ranges[k];
    if ManualPlan(init, dir, stem, ext).Err? {
      ManualPlanFirstError(init, dir, stem, ext);
    } else {
      ManualPlanValues(init, dir, stem, ext);
    }
  }

  /** Once a prefix of the ranges fails, the whole plan fails with the
      same error: later range strings are never looked at. */
  lemma {:induction false} ManualPlanStopsAtError(ranges: seq<string>, i: nat, dir: string, stem: string, ext: string)
    requires i <= |ranges|
    ensures ManualPlan(ranges[..i], dir, stem, ext).Err? ==>
              ManualPlan(ranges, dir, stem, ext) == ManualPlan(ranges[..i], dir, stem, ext)
    decreases |ranges| - i
  {
    if i < |ranges| {
      var next := ranges[..i + 1];
      assert next[..i] == ranges[..i];
      ManualPlanStopsAtError(ranges, i + 1, dir, stem, ext);
    } else {
      assert ranges[..i] == ranges;
    }
  }

  /** `plan_manual_split`. */
  method PlanManualSplit(ranges: seq<string>, parent: string, stem: string, ext: string)
    returns (r: Result<seq<SplitConfig>>)
    ensures r == ManualPlan(ranges, parent, stem, ext)
  {
    var configs: seq<SplitConfig> := [];
    var i := 0;
    while i < |ranges|
      invariant 0 <= i <= |ranges|
      invariant ManualPlan(ranges[..i], parent, stem, ext) == Ok(configs)
    {
      assert ranges[..i + 1][..i] == ranges[..i];
      ManualPlanStopsAtError(ranges, i + 1, parent, stem, ext);
      var bounds :- ParseRangeString(ranges[i]);
      var output := GeneratePartFilename(parent, stem, ext, i);
      var config :- NewSplitConfig(bounds.0, bounds.1, output);
      configs := configs + [config];
      i := i + 1;
    }
    assert ranges[..i] == ranges;
    return Ok(configs);
  }

  // ---------------------------------------------------------------------
  // plan_auto_split
  // ---------------------------------------------------------------------

  /** The number of windows of `n` lines needed for `total` lines: the
      ceiling of `total / n`. */
  function WindowCount(total: nat, n: nat): nat
    requires n > 0
  {
    (total + n - 1) / n
  }

  lemma WindowCountIsCeiling(total: nat, n: nat)
    requires n > 0 && total > 0
    ensures WindowCount(total, n) >= 1
    ensures (WindowCount(total, n) - 1) * n < total <= WindowCount(total, n) * n
  {
    var c := WindowCount(total, n);
    var rem := (total + n - 1) % n;
    assert total + n - 1 == c * n + rem;
    assert (c - 1) * n == c * n - n;
  }

  lemma MulMonotonic(a: nat, b: nat, n: nat)
    requires a <= b
    ensures a * n <= b * n
  {
  }

  /** `WindowCount` is the only count whose windows reach `total` with the
      last one starting inside the file. */
  lemma WindowCountUnique(total: nat, n: nat, k: nat)
    requires n > 0 && total > 0
    requires k >= 1 && (k - 1) * n < total <= k * n
    ensures k == WindowCount(total, n)
  {
    var c := WindowCount(total, n);
    WindowCountIsCeiling(total, n);
    if k < c {
      MulMonotonic(k, c - 1, n);
    } else if k > c {
      MulMonotonic(c, k - 1, n);
    }
  }

  /** Window `k` of a chunked plan: lines `k*n + 1` to `min((k+1)*n, total)`. */
  function Window(k: nat, n: nat, total: nat, dir: string, stem: string, ext: string): SplitConfig {
    SplitConfig(1 + k * n, Min(k * n + n, total), GeneratePartFilename(dir, stem, ext, k))
  }

  function Windows(total: nat, n: nat, dir: string, stem: string, ext: string): seq<SplitConfig>
    requires n > 0
  {
    seq(WindowCount(total, n), k requires 0 <= k => Window(k, n, total, dir, stem, ext))
  }

  function EmptyFileError(): string {
    "File is empty."
  }

  /** What `plan_auto_split` returns for a file of `total` lines: an error
      for an empty file; for a zero chunk size the error `SplitConfig::new`
      gives the first window `(1, 0)`; otherwise the windows. */
  function AutoPlan(total: nat, n: nat, dir: string, stem: string, ext: string): Result<seq<SplitConfig>>
  {
    if total == 0 then Err(EmptyFileError())
    else if n == 0 then Err(OrderError(1, 0, GeneratePartFilename(dir, stem, ext, 0)))
    else Ok(Windows(total, n, dir, stem, ext))
  }

  /** The windows of a chunked plan are contiguous: the first starts at
      line 1, each starts right after the previous one ends, and the last
      ends at `total`. */
  lemma AutoWindowsContiguous(total: nat, n: nat, dir: string, stem: string, ext: string)
    requires n > 0 && total > 0
    ensures var w := Windows(total, n, dir, stem, ext);
      && Contiguous(w)
      && w[|w| - 1].end == total
  {
    var w := Windows(total, n, dir, stem, ext);
    var c := |w|;
    WindowCountIsCeiling(total, n);
    forall k | 0 <= k < c - 1
      ensures w[k].end == k * n + n
      ensures w[k + 1].start == w[k].end + 1
    {
      MulMonotonic(k + 1, c - 1, n);
      assert (k + 1) * n == k * n + n;
    }
    forall k | 0 <= k < c
      ensures w[k].start <= w[k].end
    {
      MulMonotonic(k, c - 1, n);
    }
    assert (c - 1) * n + n == c * n;
  }

  /** The windows of a chunked plan: `ceil(total/n)` of them, all of `n`
      lines except the last, which holds the remaining
      `total - n*(count-1)` lines. */
  lemma AutoWindowsSizes(total: nat, n: nat, dir: string, stem: string, ext: string)
    requires n > 0 && total > 0
    ensures var w := Windows(total, n, dir, stem, ext);
      && |w| == WindowCount(total, n)
      && (|w| - 1) * n < total <= |w| * n
      && (forall k :: 0 <= k < |w| - 1 ==> w[k].end - w[k].start + 1 == n)
      && w[|w| - 1].end - w[|w| - 1].start + 1 == total - n * (|w| - 1)
  {
    var w := Windows(total, n, dir, stem, ext);
    WindowCountIsCeiling(total, n);
    AutoWindowsContiguous(total, n, dir, stem, ext);
    forall k | 0 <= k < |w| - 1
      ensures w[k].end - w[k].start + 1 == n
    {
      MulMonotonic(k + 1, |w| - 1, n);
      assert (k + 1) * n == k * n + n;
    }
  }

  /** `plan_auto_split`, given what `count_total_lines` obtained: the
      number of lines, or the message of the failed `File::open`. */
  method PlanAutoSplit(lineCount: Result<nat>, chunkSize: nat, parent: string, stem: string, ext: string)
    returns (r: Result<seq<SplitConfig>>)
    ensures lineCount.Err? ==> r == Err(lineCount.error)
    ensures lineCount.Ok? ==> r == AutoPlan(lineCount.value, chunkSize, parent, stem, ext)
  {
    var totalLines :- lineCount;
    if totalLines == 0 {
      return Err(EmptyFileError());
    }
    var configs: seq<SplitConfig> := [];
    var currentStart := 1;
    var index := 0;
    while currentStart <= totalLines
      invariant 1 <= currentStart <= totalLines + 1
      invariant chunkSize == 0 ==> index == 0 && currentStart == 1
      invariant chunkSize > 0 ==> currentStart == Min(1 + index * chunkSize, totalLines + 1)
      invariant index > 0 ==> (index - 1) * chunkSize < totalLines
      invariant |configs| == index
      invariant forall k :: 0 <= k < index ==> configs[k] == Window(k, chunkSize, totalLines, parent, stem, ext)
      decreases totalLines + 1 - currentStart
    {
      var currentEnd := currentStart + chunkSize - 1;
      if currentEnd > totalLines {
        currentEnd := totalLines;
      }
      var output := GeneratePartFilename(parent, stem, ext, index);
      var config :- NewSplitConfig(currentStart, currentEnd, output);
      assert (index + 1) * chunkSize == index * chunkSize + chunkSize;
      configs := configs + [config];
      currentStart := currentEnd + 1;
      index := index + 1;
    }
    WindowCountUnique(totalLines, chunkSize, index);
    assert configs == Windows(totalLines, chunkSize, parent, stem, ext);
    return Ok(configs);
  }

  /** A chunked plan loses nothing: its windows, split out of the file and
      concatenated in order, are the file's lines, and the post-check of
      `split_file` reports none of them. */
  lemma AutoPlanCoversInput(lines: seq<string>, n: nat, dir: string, stem: string, ext: string)
    requires n > 0 && |lines| > 0
    ensures AutoPlan(|lines|, n, dir, stem, ext).Ok?
    ensures SelectedInOrder(lines, AutoPlan(|lines|, n, dir, stem, ext).value) == lines
    ensures Uncovered(AutoPlan(|lines|, n, dir, stem, ext).value, |lines|) == []
  {
    var w := Windows(|lines|, n, dir, stem, ext);
    assert AutoPlan(|lines|, n, dir, stem, ext) == Ok(w);
    AutoWindowsContiguous(|lines|, n, dir, stem, ext);
    ContiguousPartsCover(lines, w);
  }

  // ---------------------------------------------------------------------
  // build_split_plan
  // ---------------------------------------------------------------------

  /** What Rust's `Path` reports for the input path: `parent()`,
      `file_stem()` and `extension()` (empty when there is none). */
  datatype PathParts = PathParts(parent: Option<string>, stem: Option<string>, extension: string)

  /** The directory the parts are written to: the mode's output directory
      if it has one, else the input's parent, else the current directory. */
  function OutputDirectory(mode: SplitMode, parent: Option<string>): string {
    match mode.outputDir
    case Some(dir) => dir
    case None => parent.GetOr(".")
  }

  /** `build_split_plan`. `present` and `isFile` stand for the checks of
      `validate_input_path`; `lineCount` is what `count_total_lines`
      obtains in chunk mode (the line count, or the open error). */
  method BuildSplitPlan(inputPath: string, present: bool, isFile: bool, path: PathParts,
                        lineCount: Result<nat>, mode: SplitMode)
    returns (r: Result<seq<SplitConfig>>)
    ensures !present ==> r == Err("Input path does not exist: '" + inputPath + "'")
    ensures present && !isFile ==> r == Err("Input path is not a file: '" + inputPath + "'")
    ensures present && isFile && path.stem.None? ==> r == Err("Invalid filename")
    ensures present && isFile && path.stem.Some? ==>
              var dir := OutputDirectory(mode, path.parent);
              r == match mode
                   case Manual(ranges, _) => ManualPlan(ranges, dir, path.stem.value, path.extension)
                   case Auto(n, _) =>
                     if lineCount.Err? then Err(lineCount.error)
                     else AutoPlan(lineCount.value, n, dir, path.stem.value, path.extension)
  {
    if !present {
      return Err("Input path does not exist: '" + inputPath + "'");
    }
    if !isFile {
      return Err("Input path is not a file: '" + inputPath + "'");
    }
    var parentDir := match mode.outputDir
      case Some(dir) => dir
      case None => path.parent.GetOr(".");
    if path.stem.None? {
      return Err("Invalid filename");
    }
    var fileStem := path.stem.value;
    match mode {
      case Manual(ranges, _) =>
        r := PlanManualSplit(ranges, parentDir, fileStem, path.extension);
      case Auto(chunkSize, _) =>
        r := PlanAutoSplit(lineCount, chunkSize, parentDir, fileStem, path.extension);
    }
  }
}
