/** The line-range file splitter (`file_spliter` crate).

    A plan is a sequence of `SplitConfig` values, each an inclusive 1-based
    line range and a destination path. `SplitFile` reads the input once,
    sends every line to each destination whose range contains the line's
    number, and then reports (and deletes the destinations of) every
    range that starts beyond the end of the input.

    The file system is not modelled as such: the input file is a value
    (`InputFile`, with the messages of the operations that fail on it),
    the destinations that can be created are a set of paths, and the
    effects of a run on the disk are returned as values
    (the destinations created, in order; the text each writer received;
    the destinations deleted, in order). */
module FileSplitter {
  import opened Wrappers
  import opened Text

  /** One output part: the inclusive line range `[start, end]` (1-based)
      and the path of the file that receives it. */
  datatype SplitConfig = SplitConfig(start: nat, end: nat, outputPath: string)

  /** The invariant `SplitConfig::new` establishes. */
  predicate WellFormed(c: SplitConfig) {
    1 <= c.start <= c.end
  }

  function ZeroStartError(outputPath: string): string {
    "Line 0 is invalid for " + outputPath + ". Start at 1."
  }

  function OrderError(start: nat, end: nat, outputPath: string): string {
    "Logic Error: Start (" + NatToString(start) + ") > End (" + NatToString(end) + ") for " + outputPath
  }

  /** `SplitConfig::new`: accepts exactly the well-formed ranges and keeps
      the three fields as given; a zero start is reported before an
      inverted range. */
  function NewSplitConfig(start: nat, end: nat, outputPath: string): (r: Result<SplitConfig>)
    ensures r.Ok? <==> 1 <= start <= end
    ensures r.Ok? ==> r.value == SplitConfig(start, end, outputPath) && WellFormed(r.value)
    ensures start == 0 ==> r == Err(ZeroStartError(outputPath))
    ensures start != 0 && start > end ==> r == Err(OrderError(start, end, outputPath))
  {
    if start == 0 then Err(ZeroStartError(outputPath))
    else if start > end then Err(OrderError(start, end, outputPath))
    else Ok(SplitConfig(start, end, outputPath))
  }

  // ---------------------------------------------------------------------
  // What each destination receives
  // ---------------------------------------------------------------------

  function Min(a: int, b: int): int {
    if a <= b then a else b
  }

  /** The lines of `lines` whose 1-based numbers lie in `[c.start, c.end]`,
      as a slice of the input: from line `max(start, 1)` up to line
      `min(end, |lines|)`, or nothing when that range is empty. */
  function Selected(lines: seq<string>, c: SplitConfig): (s: seq<string>)
  {
    var lo := if c.start == 0 then 0 else Min(c.start - 1, |lines|);
    var hi := Min(c.end, |lines|);
    if lo < hi then lines[lo..hi] else []
  }

  /** For a well-formed range this is the slice `lines[start-1 .. min(end, total)]`,
      and it is empty exactly when the range starts beyond the last line. */
  lemma SelectedWellFormed(lines: seq<string>, c: SplitConfig)
    requires WellFormed(c)
    ensures c.start <= |lines| ==> Selected(lines, c) == lines[c.start - 1..Min(c.end, |lines|)]
    ensures Selected(lines, c) == [] <==> c.start > |lines|
  {
  }

  /** What `writeln!(w, "{}", line)` for each line in turn leaves in a
      writer: every line followed by a newline. */
  function Rendered(lines: seq<string>): string
  {
    if |lines| == 0 then "" else Rendered(lines[..|lines| - 1]) + lines[|lines| - 1] + "\n"
  }

  lemma {:induction false} RenderedAppend(a: seq<string>, b: seq<string>)
    ensures Rendered(a + b) == Rendered(a) + Rendered(b)
    decreases |b|
  {
    if |b| > 0 {
      var ab := a + b;
      assert ab[..|ab| - 1] == a + b[..|b| - 1];
      RenderedAppend(a, b[..|b| - 1]);
    } else {
      assert a + b == a;
    }
  }

  lemma RenderedSnoc(a: seq<string>, x: string)
    ensures Rendered(a + [x]) == Rendered(a) + x + "\n"
  {
    assert (a + [x])[..|a|] == a;
  }

  /** Reading one more line (line number `n + 1`) adds it to a part's
      selection exactly when `start <= n + 1 <= end`, and adds nothing
      otherwise: the membership test of the distribution loop. */
  lemma LineGoesToPartIff(lines: seq<string>, n: nat, c: SplitConfig)
    requires n < |lines|
    ensures Selected(lines[..n + 1], c)
         == Selected(lines[..n], c) + (if c.start <= n + 1 <= c.end then [lines[n]] else [])
  {
    var before, after := lines[..n], lines[..n + 1];
    var lo := if c.start == 0 then 0 else Min(c.start - 1, n);
    var lo' := if c.start == 0 then 0 else Min(c.start - 1, n + 1);
    var hi, hi' := Min(c.end, n), Min(c.end, n + 1);
    if c.start <= n + 1 <= c.end {
      assert lo' == lo && hi' == n + 1;
      assert after[lo..hi'] == lines[lo..n + 1];
      if lo < hi {
        assert before[lo..hi] == lines[lo..n];
        assert lines[lo..n + 1] == lines[lo..n] + [lines[n]];
      } else {
        assert lo == n;
      }
    } else if lo < hi {
      assert lo' == lo && hi' == hi;
      assert after[lo..hi] == lines[lo..hi] == before[lo..hi];
    }
  }

  // ---------------------------------------------------------------------
  // The post-check
  // ---------------------------------------------------------------------

  /** The parts, in plan order, whose range starts after the last line. */
  function Uncovered(parts: seq<SplitConfig>, total: nat): seq<SplitConfig>
  {
    if |parts| == 0 then []
    else
      Uncovered(parts[..|parts| - 1], total)
      + (if total < parts[|parts| - 1].start then [parts[|parts| - 1]] else [])
  }

  /** A part is reported exactly when it starts beyond the last line, so
      the run fails exactly when some part does; a part that starts in
      the file and ends past it (a partial range) is never reported. */
  lemma {:induction false} UncoveredIff(parts: seq<SplitConfig>, total: nat)
    ensures forall c :: c in Uncovered(parts, total) <==> c in parts && total < c.start
    ensures Uncovered(parts, total) == [] <==> forall i :: 0 <= i < |parts| ==> parts[i].start <= total
    ensures |Uncovered(parts, total)| <= |parts|
  {
    if |parts| > 0 {
      var init := parts[..|parts| - 1];
      UncoveredIff(init, total);
      assert parts == init + [parts[|parts| - 1]];
      if Uncovered(parts, total) == [] {
        forall i | 0 <= i < |parts|
          ensures parts[i].start <= total
        {
          if i < |parts| - 1 {
            assert parts[i] in init;
          }
        }
      }
    }
  }

  function CoverageError(c: SplitConfig, total: nat): string {
    "\U{274C} Range " + NatToString(c.start) + "-" + NatToString(c.end)
    + " failed: Input file only has " + NatToString(total) + " lines."
  }

  function CoverageErrors(us: seq<SplitConfig>, total: nat): (msgs: seq<string>)
    ensures |msgs| == |us|
  {
    seq(|us|, i requires 0 <= i < |us| => CoverageError(us[i], total))
  }

  function Paths(parts: seq<SplitConfig>): (paths: seq<string>)
    ensures |paths| == |parts|
  {
    seq(|parts|, i requires 0 <= i < |parts| => parts[i].outputPath)
  }

  function SuccessMessage(total: nat, files: nat): string {
    "Success! Processed " + NatToString(total) + " lines into " + NatToString(files) + " files."
  }

  function NotFoundError(path: string): string {
    "Input file not found: " + path
  }

  function EmptyInputError(path: string): string {
    "Input file is empty (0 bytes): " + path
  }

  function OpenError(osError: string): string {
    "Open error: " + osError
  }

  function CannotCreateError(path: string, osError: string): string {
    "Cannot create " + path + ": " + osError
  }

  // ---------------------------------------------------------------------
  // split_file
  // ---------------------------------------------------------------------

  /** The input as the file system presents it: whether the path exists
      (`present`), the message of `fs::metadata` when it fails, the size in
      bytes, the message of `File::open` when it fails, and the lines
      `BufRead::lines` yields. */
  datatype InputFile = InputFile(path: string, present: bool, metadataError: Option<string>, size: nat,
                                 openError: Option<string>, lines: seq<string>)

  /** The input passes the pre-check and opens: the writers get created. */
  predicate Readable(input: InputFile) {
    input.present && input.metadataError.None? && input.size > 0 && input.openError.None?
  }

  /** The index of the first part whose destination cannot be created, or
      `|parts|` when every one can. */
  function FirstUncreatable(parts: seq<SplitConfig>, creatable: set<string>): (j: nat)
    ensures j <= |parts|
    ensures forall k :: 0 <= k < j ==> parts[k].outputPath in creatable
    ensures j < |parts| ==> parts[j].outputPath !in creatable
  {
    if |parts| == 0 then 0
    else if parts[0].outputPath !in creatable then 0
    else 1 + FirstUncreatable(parts[1..], creatable)
  }

  /** `split_file`. Returns the result and the run's effects on the disk:
      `created` lists the destinations created (in plan order),
      `written[i]` is the text written to `created[i]`, and `deleted` lists
      the destinations removed by the post-check. `creatable` holds the
      destinations `File::create` can create, and `createError` gives the
      message it fails with for any other. A file with bytes in it has at
      least one line. */
  method SplitFile(input: InputFile, parts: seq<SplitConfig>, creatable: set<string>,
                   createError: string -> string)
    returns (r: Result<string>, created: seq<string>, written: seq<string>, deleted: seq<string>)
    requires input.size > 0 ==> |input.lines| >= 1
    // Pre-check: a missing, unreadable or 0-byte input fails before any destination exists.
    ensures !input.present ==> r == Err(NotFoundError(input.path)) && created == [] && deleted == []
    ensures input.present && input.metadataError.Some? ==>
              r == Err(input.metadataError.value) && created == [] && deleted == []
    ensures input.present && input.metadataError.None? && input.size == 0 ==>
              r == Err(EmptyInputError(input.path)) && created == [] && deleted == []
    ensures input.present && input.metadataError.None? && input.size > 0 && input.openError.Some? ==>
              r == Err(OpenError(input.openError.value)) && created == [] && deleted == []
    ensures |written| == |created|
    // Creation fails fast; what was created before stays, empty.
    ensures Readable(input) && FirstUncreatable(parts, creatable) < |parts| ==>
              var j := FirstUncreatable(parts, creatable);
              && r == Err(CannotCreateError(parts[j].outputPath, createError(parts[j].outputPath)))
              && created == Paths(parts[..j])
              && (forall i :: 0 <= i < j ==> written[i] == "")
              && deleted == []
    // A full run: each destination holds its slice of the input, the
    // post-check deletes and reports the parts that start past the end.
    ensures Readable(input) && FirstUncreatable(parts, creatable) == |parts| ==>
              var total := |input.lines|;
              var failed := Uncovered(parts, total);
              && created == Paths(parts)
              && (forall i :: 0 <= i < |parts| ==> written[i] == Rendered(Selected(input.lines, parts[i])))
              && deleted == Paths(failed)
              && r == if failed == [] then Ok(SuccessMessage(total, |parts|))
                      else Err(Join(CoverageErrors(failed, total), "\n"))
  {
    created, written, deleted := [], [], [];

    // 1. Pre-check.
    if !input.present {
      r := Err(NotFoundError(input.path));
      return;
    }
    if input.metadataError.Some? {
      r := Err(input.metadataError.value);
      return;
    }
    if input.size == 0 {
      r := Err(EmptyInputError(input.path));
      return;
    }
    if input.openError.Some? {
      r := Err(OpenError(input.openError.value));
      return;
    }

    // 2. Prepare writers, failing at the first destination that cannot be created.
    var writers := new string[|parts|](_ => "");
    var k := 0;
    while k < |parts|
      invariant 0 <= k <= |parts|
      invariant created == Paths(parts[..k])
      invariant forall m :: 0 <= m < k ==> parts[m].outputPath in creatable
    {
      if parts[k].outputPath !in creatable {
        assert FirstUncreatable(parts, creatable) == k by {
          FirstUncreatableIs(parts, creatable, k);
        }
        r := Err(CannotCreateError(parts[k].outputPath, createError(parts[k].outputPath)));
        written := writers[..k];
        return;
      }
      created := created + [parts[k].outputPath];
      k := k + 1;
    }
    assert parts[..k] == parts;
    FirstUncreatableIs(parts, creatable, |parts|);

    // 3. Distribute the lines.
    var totalLinesRead := DistributeLines(input.lines, parts, writers);
    written := writers[..];

    // 4. Post-check: report and delete every part that starts past the end.
    var errors;
    errors, deleted := PostCheck(parts, totalLinesRead);
    if |errors| > 0 {
      r := Err(Join(errors, "\n"));
    } else {
      r := Ok(SuccessMessage(totalLinesRead, |parts|));
    }
  }

  /** Stage 3 of `split_file`: one pass over the input, appending each line
      (and a newline) to the writer of every part whose range holds the
      line's number. Returns the number of lines read. */
  method DistributeLines(lines: seq<string>, parts: seq<SplitConfig>, writers: array<string>)
    returns (totalLinesRead: nat)
    requires writers.Length == |parts|
    requires forall m :: 0 <= m < |parts| ==> writers[m] == ""
    modifies writers
    ensures totalLinesRead == |lines|
    ensures forall m :: 0 <= m < |parts| ==> writers[m] == Rendered(Selected(lines, parts[m]))
  {
    totalLinesRead := 0;
    var index := 0;
    while index < |lines|
      invariant 0 <= index <= |lines|
      invariant totalLinesRead == index
      invariant forall m :: 0 <= m < |parts| ==> writers[m] == WriterAfter(lines, index, parts[m])
    {
      totalLinesRead := index + 1;
      SendLine(lines, index, parts, writers);
      index := index + 1;
    }
    assert lines[..index] == lines;
    assert forall m :: 0 <= m < |parts| ==> writers[m] == WriterAfter(lines, index, parts[m]);
  }

  /** The text a part's writer holds after the first `n` lines were read. */
  function WriterAfter(lines: seq<string>, n: nat, c: SplitConfig): string
    requires n <= |lines|
  {
    Rendered(Selected(lines[..n], c))
  }

  /** What the writer of part `c` holds once line number `n + 1`, `line`,
      has been offered to it: `w` with the line and a newline appended
      when the range holds `n + 1`, else `w` unchanged. */
  function Offered(w: string, line: string, n: nat, c: SplitConfig): string {
    if c.start <= n + 1 <= c.end then w + (line + "\n") else w
  }

  /** Reading line `n + 1` appends it and a newline to the writer of a
      part exactly when the part's range holds `n + 1`. */
  lemma WriterStep(lines: seq<string>, n: nat, c: SplitConfig)
    requires n < |lines|
    ensures WriterAfter(lines, n + 1, c) == Offered(WriterAfter(lines, n, c), lines[n], n, c)
  {
    LineGoesToPartIff(lines, n, c);
    var before := Selected(lines[..n], c);
    if c.start <= n + 1 <= c.end {
      RenderedSnoc(before, lines[n]);
      assert Rendered(before) + lines[n] + "\n" == Rendered(before) + (lines[n] + "\n");
    } else {
      assert before + [] == before;
      assert Rendered(before) + "" == Rendered(before);
    }
  }

  /** The inner loop of stage 3: line number `index + 1` goes to the
      writer of every part whose range holds it. */
  method SendLine(lines: seq<string>, index: nat, parts: seq<SplitConfig>, writers: array<string>)
    requires index < |lines|
    requires writers.Length == |parts|
    requires forall m :: 0 <= m < |parts| ==> writers[m] == WriterAfter(lines, index, parts[m])
    modifies writers
    ensures forall m :: 0 <= m < |parts| ==> writers[m] == WriterAfter(lines, index + 1, parts[m])
  {
    var line := lines[index];
    var currentLineNum := index + 1;
    var i := 0;
    while i < |parts|
      invariant 0 <= i <= |parts|
      invariant forall m :: 0 <= m < i ==> writers[m] == Offered(old(writers[m]), line, index, parts[m])
      invariant forall m :: i <= m < |parts| ==> writers[m] == old(writers[m])
    {
      if currentLineNum >= parts[i].start && currentLineNum <= parts[i].end {
        writers[i] := writers[i] + (line + "\n");
      }
      i := i + 1;
    }
    forall m | 0 <= m < |parts|
      ensures writers[m] == WriterAfter(lines, index + 1, parts[m])
    {
      WriterStep(lines, index, parts[m]);
    }
  }

  /** Stage 4 of `split_file`: examines every part, in plan order, and for
      each one that starts after line `total` records a message and
      deletes its destination. */
  method PostCheck(parts: seq<SplitConfig>, total: nat) returns (errors: seq<string>, deleted: seq<string>)
    ensures errors == CoverageErrors(Uncovered(parts, total), total)
    ensures deleted == Paths(Uncovered(parts, total))
  {
    errors, deleted := [], [];
    var p := 0;
    while p < |parts|
      invariant 0 <= p <= |parts|
      invariant errors == CoverageErrors(Uncovered(parts[..p], total), total)
      invariant deleted == Paths(Uncovered(parts[..p], total))
    {
      assert parts[..p + 1][..p] == parts[..p];
      if total < parts[p].start {
        errors := errors + [CoverageError(parts[p], total)];
        deleted := deleted + [parts[p].outputPath];
      }
      p := p + 1;
    }
    assert parts[..p] == parts;
  }

  lemma {:induction false} FirstUncreatableIs(parts: seq<SplitConfig>, creatable: set<string>, k: nat)
    requires k <= |parts|
    requires forall m :: 0 <= m < k ==> parts[m].outputPath in creatable
    requires k < |parts| ==> parts[k].outputPath !in creatable
    ensures FirstUncreatable(parts, creatable) == k
  {
    if k > 0 {
      FirstUncreatableIs(parts[1..], creatable, k - 1);
    }
  }

  // ---------------------------------------------------------------------
  // Reassembly
  // ---------------------------------------------------------------------

  /** The selections of all parts, one after the other, in plan order. */
  function SelectedInOrder(lines: seq<string>, parts: seq<SplitConfig>): seq<string>
  {
    if |parts| == 0 then []
    else SelectedInOrder(lines, parts[..|parts| - 1]) + Selected(lines, parts[|parts| - 1])
  }

  /** A plan is contiguous when it starts at line 1, each range starts
      right after the previous one ends, and no range is empty. */
  predicate Contiguous(parts: seq<SplitConfig>) {
    && |parts| >= 1
    && parts[0].start == 1
    && (forall k :: 0 <= k < |parts| ==> parts[k].start <= parts[k].end)
    && (forall k :: 0 <= k < |parts| - 1 ==> parts[k + 1].start == parts[k].end + 1)
  }

  /** The lines up to line `prevEnd`, followed by the selection of a
      range that starts right after it, are the lines up to that range's
      end. */
  lemma SelectedAfter(lines: seq<string>, prevEnd: nat, c: SplitConfig)
    requires c.start == prevEnd + 1 <= c.end
    ensures lines[..Min(prevEnd, |lines|)] + Selected(lines, c) == lines[..Min(c.end, |lines|)]
  {
    var mid := Min(prevEnd, |lines|);
    var hi := Min(c.end, |lines|);
    if mid < hi {
      assert Selected(lines, c) == lines[mid..hi];
      assert lines[..mid] + lines[mid..hi] == lines[..hi];
    } else {
      assert Selected(lines, c) == [];
    }
  }

  lemma {:induction false} SelectedInOrderPrefix(lines: seq<string>, parts: seq<SplitConfig>)
    requires Contiguous(parts)
    ensures SelectedInOrder(lines, parts) == lines[..Min(parts[|parts| - 1].end, |lines|)]
  {
    var n := |parts|;
    if n == 1 {
      assert SelectedInOrder(lines, parts) == Selected(lines, parts[0]);
    } else {
      var init := parts[..n - 1];
      assert Contiguous(init);
      SelectedInOrderPrefix(lines, init);
      assert SelectedInOrder(lines, parts) == SelectedInOrder(lines, init) + Selected(lines, parts[n - 1]);
      SelectedAfter(lines, parts[n - 2].end, parts[n - 1]);
    }
  }

  /** Round trip: when the ranges of a plan are contiguous from line 1 and
      the last reaches the end of the input, the selections concatenated
      in plan order are exactly the input's lines. */
  lemma ContiguousPartsReassemble(lines: seq<string>, parts: seq<SplitConfig>)
    requires Contiguous(parts)
    requires parts[|parts| - 1].end >= |lines|
    ensures SelectedInOrder(lines, parts) == lines
  {
    SelectedInOrderPrefix(lines, parts);
  }

  /** Contiguous ranges ending exactly at the last line lose nothing:
      reassembled they give the file's lines, and the post-check of
      `split_file` reports none of them. */
  lemma ContiguousPartsCover(lines: seq<string>, parts: seq<SplitConfig>)
    requires Contiguous(parts)
    requires parts[|parts| - 1].end == |lines|
    ensures SelectedInOrder(lines, parts) == lines
    ensures Uncovered(parts, |lines|) == []
  {
    ContiguousPartsReassemble(lines, parts);
    UncoveredIff(parts, |lines|);
    ContiguousEndsBounded(parts);
  }

  lemma {:induction false} ContiguousEndsBounded(parts: seq<SplitConfig>)
    requires Contiguous(parts)
    ensures forall k :: 0 <= k < |parts| ==> parts[k].start <= parts[|parts| - 1].end
    decreases |parts|
  {
    if |parts| > 1 {
      var init := parts[..|parts| - 1];
      assert Contiguous(init);
      ContiguousEndsBounded(init);
    }
  }

  /** The texts of several writers one after the other. */
  function Concatenated(texts: seq<string>): string
  {
    if |texts| == 0 then "" else Concatenated(texts[..|texts| - 1]) + texts[|texts| - 1]
  }

  lemma {:induction false} ConcatenatedRendered(lines: seq<string>, parts: seq<SplitConfig>)
    ensures Concatenated(seq(|parts|, i requires 0 <= i < |parts| => Rendered(Selected(lines, parts[i]))))
         == Rendered(SelectedInOrder(lines, parts))
  {
    var texts := seq(|parts|, i requires 0 <= i < |parts| => Rendered(Selected(lines, parts[i])));
    if |parts| > 0 {
      var n := |parts|;
      ConcatenatedRendered(lines, parts[..n - 1]);
      assert texts[..n - 1] == seq(n - 1, i requires 0 <= i < n - 1 => Rendered(Selected(lines, parts[..n - 1][i])));
      RenderedAppend(SelectedInOrder(lines, parts[..n - 1]), Selected(lines, parts[n - 1]));
    }
  }

  /** The destinations of a successful run over a contiguous plan that
      reaches the end of the input, concatenated in plan order, hold
      exactly the input's text, each line followed by a newline. */
  lemma ContiguousOutputsReassemble(lines: seq<string>, parts: seq<SplitConfig>, written: seq<string>)
    requires Contiguous(parts)
    requires parts[|parts| - 1].end >= |lines|
    requires |written| == |parts|
    requires forall i :: 0 <= i < |parts| ==> written[i] == Rendered(Selected(lines, parts[i]))
    ensures Concatenated(written) == Rendered(lines)
  {
    assert written == seq(|parts|, i requires 0 <= i < |parts| => Rendered(Selected(lines, parts[i])));
    ConcatenatedRendered(lines, parts);
    ContiguousPartsReassemble(lines, parts);
  }
}
