/** The `youtube_subtitle_manager` crate: picking the video ID out of a
    URL, and writing a fetched transcript as a numbered SubRip file.

    The transcript service is not modelled: what `fetch_transcript`
    returns (the parts, or its error message) and whether the output file
    can be created are inputs. */
module SubtitleManager {
  import opened Wrappers
  import opened Text
  import opened Srt

  // ---------------------------------------------------------------------
  // extract_id
  // ---------------------------------------------------------------------

  /** `extract_id`: the input itself when it has no `"v="`; otherwise the
      second piece of splitting at `"v="`, cut at its first `'&'`, with the
      input as the fallback when a piece is missing. */
  function ExtractId(input: string): string
  {
    if Contains(input, "v=") then
      var second := Nth(SplitOn(input, "v="), 1);
      var cut := match second
        case None => None
        case Some(piece) => Nth(Split(piece, '&'), 0);
      cut.GetOr(input)
    else input
  }

  /** With a `"v="` in the input, the ID is the first `'&'`-piece of the
      second `"v="`-piece. */
  lemma ExtractIdPieces(input: string)
    requires Contains(input, "v=")
    ensures ExtractId(input) == Split(SplitOn(input, "v=")[1], '&')[0]
  {
  }

  /** What `extract_id` returns: the input unchanged when it holds no
      `"v="`; otherwise the text that starts right after the first `"v="`
      and runs up to the first `'&'`, the next `"v="`, or the end of the
      input, whichever comes first. The fallback to the whole input is
      never taken. */
  lemma ExtractIdCut(input: string)
    ensures !Contains(input, "v=") ==> ExtractId(input) == input
    ensures Contains(input, "v=") ==> CutAt(input, "v=", '&', Find(input, "v=").value + 2, ExtractId(input))
  {
    if Contains(input, "v=") {
      ExtractIdPieces(input);
      SecondPieceCut(input, "v=", '&', ExtractId(input));
    }
  }

  /** The ID is a contiguous piece of the input and never holds a `"v="`. */
  lemma ExtractIdSubstring(input: string)
    ensures var id := ExtractId(input);
      && Contains(input, id)
      && !Contains(id, "v=")
  {
    var id := ExtractId(input);
    ExtractIdCut(input);
    if Contains(input, "v=") {
      var start := Find(input, "v=").value + 2;
      assert OccursAt(input, id, start);
      forall q: nat | q <= |id|
        ensures OccursAt(id, "v=", q) ==> OccursAt(input, "v=", start + q)
      {
        if q + 2 <= |id| {
          SliceOfSlice(input, start, start + |id|, q, q + 2);
        }
      }
    } else {
      assert OccursAt(input, id, 0);
    }
  }

  /** Extracting from an ID gives the same ID back. */
  lemma ExtractIdIdempotent(input: string)
    ensures ExtractId(ExtractId(input)) == ExtractId(input)
  {
    ExtractIdSubstring(input);
  }

  // ---------------------------------------------------------------------
  // download_subtitle
  // ---------------------------------------------------------------------

  /** One part of a fetched transcript, its times already truncated to
      whole milliseconds. */
  datatype TranscriptPart = TranscriptPart(startMs: nat, durationMs: nat, text: string)

  /** The cues `download_subtitle` writes: one per part, in order. */
  function PartCues(parts: seq<TranscriptPart>): seq<Cue>
  {
    if |parts| == 0 then []
    else
      var last := parts[|parts| - 1];
      PartCues(parts[..|parts| - 1]) + [Cue(|parts|, last.startMs, last.startMs + last.durationMs, last.text)]
  }

  /** There is one cue per part; the cues are numbered consecutively from
      1, and each runs from its part's start to its start plus duration,
      with its part's text. */
  lemma {:induction false} PartCuesShape(parts: seq<TranscriptPart>)
    ensures |PartCues(parts)| == |parts|
    ensures NumberedFromOne(PartCues(parts))
    ensures forall k :: 0 <= k < |parts| ==>
              && PartCues(parts)[k].startMs == parts[k].startMs
              && PartCues(parts)[k].endMs == parts[k].startMs + parts[k].durationMs
              && PartCues(parts)[k].text == parts[k].text
  {
    if |parts| > 0 {
      var init := parts[..|parts| - 1];
      PartCuesShape(init);
      assert forall k :: 0 <= k < |init| ==> init[k] == parts[k];
    }
  }

  /** One step of the writing loop: the cue for part `i` extends what the
      earlier parts rendered. */
  lemma WriteStep(parts: seq<TranscriptPart>, i: nat, cue: Cue)
    requires i < |parts|
    requires cue == Cue(i + 1, parts[i].startMs, parts[i].startMs + parts[i].durationMs, parts[i].text)
    ensures RenderCues(PartCues(parts[..i + 1])) == RenderCues(PartCues(parts[..i])) + RenderCue(cue)
  {
    assert parts[..i + 1][..i] == parts[..i];
    assert PartCues(parts[..i + 1]) == PartCues(parts[..i]) + [cue];
    RenderCuesAppend(PartCues(parts[..i]), cue);
  }

  /** The loop of `download_subtitle` that writes the cues, with the file
      modelled as the text written to it. */
  method WriteCues(parts: seq<TranscriptPart>) returns (content: string)
    ensures content == RenderCues(PartCues(parts))
  {
    content := "";
    var counter := 1;
    var i := 0;
    while i < |parts|
      invariant 0 <= i <= |parts|
      invariant counter == i + 1
      invariant content == RenderCues(PartCues(parts[..i]))
    {
      var part := parts[i];
      var end := part.startMs + part.durationMs;
      var cue := Cue(counter, part.startMs, end, part.text);
      WriteStep(parts, i, cue);
      content := content + RenderCue(cue);
      counter := counter + 1;
      i := i + 1;
    }
    assert parts[..i] == parts;
  }

  /** The file `download_subtitle` saved: its name and its contents. */
  datatype SavedFile = SavedFile(name: string, content: string)

  /** The name of the saved file: the ID, `_`, the language and `.srt`. */
  function SubtitleFilename(id: string, lang: string): string {
    id + "_" + lang + ".srt"
  }

  /** `download_subtitle`. `fetch` stands for the transcript service: given
      the ID and the language it yields the parts or an error message.
      `createError` is the message of `File::create` when it fails. */
  method DownloadSubtitle(videoId: string, lang: Option<string>,
                          fetch: (string, string) -> Result<seq<TranscriptPart>>,
                          createError: Option<string>)
    returns (r: Result<SavedFile>)
    ensures var id, code := ExtractId(videoId), lang.GetOr("en");
      && (fetch(id, code).Err? ==> r == Err("YouTube transcript error: " + fetch(id, code).error))
      && (fetch(id, code).Ok? && createError.Some? ==> r == Err("IO error: " + createError.value))
      && (fetch(id, code).Ok? && createError.None? ==>
            r == Ok(SavedFile(SubtitleFilename(id, code), RenderCues(PartCues(fetch(id, code).value)))))
  {
    var id := ExtractId(videoId);
    var langCode := lang.GetOr("en");
    var transcript := fetch(id, langCode);
    if transcript.Err? {
      return Err("YouTube transcript error: " + transcript.error);
    }
    var filename := SubtitleFilename(id, langCode);
    if createError.Some? {
      return Err("IO error: " + createError.value);
    }
    var content := WriteCues(transcript.value);
    return Ok(SavedFile(filename, content));
  }

  /** The saved file is named after the ID and the language, so passing the
      extracted ID instead of the URL saves under the same name. */
  lemma DownloadFilenameFromId(url: string, lang: Option<string>)
    ensures SubtitleFilename(ExtractId(ExtractId(url)), lang.GetOr("en"))
              == SubtitleFilename(ExtractId(url), lang.GetOr("en"))
  {
    ExtractIdIdempotent(url);
  }
}
