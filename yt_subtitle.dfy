/** The `yt_subtitle_download` crate: the pure steps of downloading a
    video's subtitles from its watch page — the video ID, the choice of
    caption track, the SubRip serialisation of the json3 transcript events
    and the name of the saved file.

    The network and the parsing libraries are not modelled: the player
    response read from the watch page and the transcript events read from
    the track URL come from function parameters standing for those
    requests. HTML entity decoding and Unicode's alphanumeric test are
    function parameters too. */
module YtSubtitle {
  import opened Wrappers
  import opened Text
  import opened Srt
  import SubtitleManager

  // ---------------------------------------------------------------------
  // Transcript events and their SubRip form (events_to_srt)
  // ---------------------------------------------------------------------

  datatype Segment = Segment(utf8: string)

  /** One json3 event; any of its fields may be missing. */
  datatype TranscriptEvent = TranscriptEvent(tStartMs: Option<nat>, dDurationMs: Option<nat>, segs: Option<seq<Segment>>)

  /** An event becomes a cue only when it has a start, a duration and
      segments. */
  predicate Complete(e: TranscriptEvent) {
    e.tStartMs.Some? && e.dDurationMs.Some? && e.segs.Some?
  }

  /** The segments' text concatenated in order. */
  function Joined(segs: seq<Segment>): string
  {
    if |segs| == 0 then "" else Joined(segs[..|segs| - 1]) + segs[|segs| - 1].utf8
  }

  /** The cue a complete event gives under the number `number`. */
  function EventCue(e: TranscriptEvent, number: nat, decode: string -> string): Cue
    requires Complete(e)
  {
    Cue(number, e.tStartMs.value, e.tStartMs.value + e.dDurationMs.value, decode(Joined(e.segs.value)))
  }

  /** The cues of a list of events: one per complete event, numbered by
      its rank among the complete events. */
  function Cues(events: seq<TranscriptEvent>, decode: string -> string): seq<Cue>
  {
    if |events| == 0 then []
    else
      var init := Cues(events[..|events| - 1], decode);
      var e := events[|events| - 1];
      if Complete(e) then init + [EventCue(e, |init| + 1, decode)] else init
  }

  /** The complete events, in order. */
  function CompleteEvents(events: seq<TranscriptEvent>): (r: seq<TranscriptEvent>)
    ensures forall e :: e in r <==> e in events && Complete(e)
  {
    if |events| == 0 then []
    else
      var init := CompleteEvents(events[..|events| - 1]);
      var e := events[|events| - 1];
      assert events == events[..|events| - 1] + [e];
      if Complete(e) then init + [e] else init
  }

  /** The k-th cue is the cue of the k-th complete event, numbered k + 1:
      incomplete events are skipped without using up a number. */
  lemma {:induction false} CuesOfCompleteEvents(events: seq<TranscriptEvent>, decode: string -> string)
    ensures var cues, done := Cues(events, decode), CompleteEvents(events);
      && |cues| == |done|
      && forall k :: 0 <= k < |done| ==> cues[k] == EventCue(done[k], k + 1, decode)
  {
    if |events| > 0 {
      CuesOfCompleteEvents(events[..|events| - 1], decode);
    }
  }

  /** The cues are numbered consecutively from 1, one per complete event;
      each runs from its event's start to its start plus duration, and its
      text is the event's segments, concatenated and then decoded. */
  lemma CuesNumbered(events: seq<TranscriptEvent>, decode: string -> string)
    ensures |Cues(events, decode)| == |CompleteEvents(events)|
    ensures NumberedFromOne(Cues(events, decode))
    ensures forall k :: 0 <= k < |CompleteEvents(events)| ==>
              var e := CompleteEvents(events)[k];
              && Complete(e)
              && Cues(events, decode)[k].startMs == e.tStartMs.value
              && Cues(events, decode)[k].endMs == e.tStartMs.value + e.dDurationMs.value
              && Cues(events, decode)[k].text == decode(Joined(e.segs.value))
  {
    CuesOfCompleteEvents(events, decode);
    assert forall k :: 0 <= k < |CompleteEvents(events)| ==> CompleteEvents(events)[k] in CompleteEvents(events);
  }

  /** An event missing its start, its duration or its segments adds
      nothing to the output. */
  lemma IncompleteEventSkipped(events: seq<TranscriptEvent>, e: TranscriptEvent, decode: string -> string)
    requires !Complete(e)
    ensures RenderCues(Cues(events + [e], decode)) == RenderCues(Cues(events, decode))
  {
    assert (events + [e])[..|events|] == events;
  }

  /** One step of the serialising loop: a complete event appends its cue,
      numbered one past the cues so far. */
  lemma SrtStepComplete(events: seq<TranscriptEvent>, i: nat, decode: string -> string, cue: Cue)
    requires i < |events| && Complete(events[i])
    requires cue == EventCue(events[i], |Cues(events[..i], decode)| + 1, decode)
    ensures Cues(events[..i + 1], decode) == Cues(events[..i], decode) + [cue]
  {
    assert events[..i + 1][..i] == events[..i];
  }

  /** One step of the serialising loop: an incomplete event changes
      nothing. */
  lemma SrtStepIncomplete(events: seq<TranscriptEvent>, i: nat, decode: string -> string)
    requires i < |events| && !Complete(events[i])
    ensures Cues(events[..i + 1], decode) == Cues(events[..i], decode)
  {
    assert events[..i + 1][..i] == events[..i];
  }

  /** `events_to_srt`: writes one cue per complete event, numbering them
      from 1. Writing into a `String` cannot fail, so the result is always
      `Ok`. */
  method EventsToSrt(events: seq<TranscriptEvent>, decode: string -> string) returns (r: Result<string>)
    ensures r == Ok(RenderCues(Cues(events, decode)))
  {
    var output := "";
    var counter := 1;
    ghost var cues: seq<Cue> := [];
    var i := 0;
    assert events[..i] == [];
    while i < |events|
      invariant 0 <= i <= |events|
      invariant cues == Cues(events[..i], decode)
      invariant counter == |cues| + 1
      invariant output == RenderCues(cues)
    {
      var event := events[i];
      if event.tStartMs.Some? && event.dDurationMs.Some? && event.segs.Some? {
        var cue := EventCue(event, counter, decode);
        SrtStepComplete(events, i, decode, cue);
        RenderCuesAppend(cues, cue);
        output := output + RenderCue(cue);
        cues := cues + [cue];
        counter := counter + 1;
        assert cues == Cues(events[..i + 1], decode);
      } else {
        SrtStepIncomplete(events, i, decode);
        assert cues == Cues(events[..i + 1], decode);
      }
      i := i + 1;
    }
    assert events[..i] == events;
    return Ok(output);
  }

  // ---------------------------------------------------------------------
  // Video ID (download_subtitle, first step)
  // ---------------------------------------------------------------------

  /** The ID step of `download_subtitle`: the same split chain as
      `extract_id`, but with errors where `extract_id` falls back to the
      input. */
  function VideoId(input: string): Result<string>
  {
    if Contains(input, "v=") then
      match Nth(SplitOn(input, "v="), 1)
      case None => Err("Invalid URL: Could not find 'v=' parameter")
      case Some(piece) =>
        match Nth(Split(piece, '&'), 0)
        case None => Err("Invalid URL: Video ID segment is empty")
        case Some(id) => Ok(id)
    else Ok(input)
  }

  /** Neither error of the ID step can happen, and the ID it picks is the
      one `extract_id` picks. */
  lemma VideoIdIsExtractId(input: string)
    ensures VideoId(input) == Ok(SubtitleManager.ExtractId(input))
  {
  }

  // ---------------------------------------------------------------------
  // Caption tracks
  // ---------------------------------------------------------------------

  datatype CaptionTrack = CaptionTrack(baseUrl: string, name: string, langCode: string)

  datatype VideoDetails = VideoDetails(title: string, videoId: string)

  /** What the watch page's player response says: the caption tracks, if
      the video has captions, and the video details. */
  datatype PlayerResponse = PlayerResponse(captions: Option<seq<CaptionTrack>>, videoDetails: Option<VideoDetails>)

  function LangCodes(tracks: seq<CaptionTrack>): (codes: seq<string>)
    ensures |codes| == |tracks|
    ensures forall i :: 0 <= i < |tracks| ==> codes[i] == tracks[i].langCode
  {
    if |tracks| == 0 then [] else LangCodes(tracks[..|tracks| - 1]) + [tracks[|tracks| - 1].langCode]
  }

  /** `{:?}` of a list of strings: each quoted, separated by `", "`, in
      brackets. */
  function DebugList(items: seq<string>): string
  {
    "[" + Join(seq(|items|, i requires 0 <= i < |items| => "\"" + items[i] + "\""), ", ") + "]"
  }

  function LanguageError(lang: string, tracks: seq<CaptionTrack>): string
  {
    "Language '" + lang + "' not available. Available: " + DebugList(LangCodes(tracks))
  }

  /** The position of the first track in `lang`. */
  function FirstTrackIn(tracks: seq<CaptionTrack>, lang: string): (r: Option<nat>)
    ensures r.Some? ==> r.value < |tracks| && tracks[r.value].langCode == lang
    ensures r.Some? ==> forall k :: 0 <= k < r.value ==> tracks[k].langCode != lang
    ensures r.None? ==> forall k :: 0 <= k < |tracks| ==> tracks[k].langCode != lang
  {
    if |tracks| == 0 then None
    else if tracks[0].langCode == lang then Some(0)
    else
      match FirstTrackIn(tracks[1..], lang)
      case None => None
      case Some(i) => Some(i + 1)
  }

  /** The track lookup of `download_subtitle`. */
  function FindTrack(tracks: seq<CaptionTrack>, lang: string): Result<CaptionTrack>
  {
    match FirstTrackIn(tracks, lang)
    case None => Err(LanguageError(lang, tracks))
    case Some(i) => Ok(tracks[i])
  }

  /** The lookup succeeds exactly when some track is in the requested
      language, and then yields the first such track; otherwise the error
      lists every language offered, in order. */
  lemma FindTrackFirstMatch(tracks: seq<CaptionTrack>, lang: string)
    ensures var r := FindTrack(tracks, lang);
      && (r.Ok? <==> exists i :: 0 <= i < |tracks| && tracks[i].langCode == lang)
      && (r.Ok? ==> exists i :: 0 <= i < |tracks| && r.value == tracks[i] && r.value.langCode == lang
                              && forall k :: 0 <= k < i ==> tracks[k].langCode != lang)
      && (r.Err? ==> r.error == LanguageError(lang, tracks))
  {
  }

  // ---------------------------------------------------------------------
  // Safe file name
  // ---------------------------------------------------------------------

  /** Rust's `char::is_alphanumeric`: the ASCII letters and digits, and
      beyond ASCII whatever the Unicode tables say (`unicodeAlnum`). */
  predicate IsAlphanumeric(c: char, unicodeAlnum: char -> bool) {
    if c < 128 as char then ('a' <= c <= 'z') || ('A' <= c <= 'Z') || ('0' <= c <= '9')
    else unicodeAlnum(c)
  }

  predicate Kept(c: char, unicodeAlnum: char -> bool) {
    IsAlphanumeric(c, unicodeAlnum) || c == ' '
  }

  /** The first `replace` of the title: drops every character that is
      neither alphanumeric nor a space, keeping the others in order. */
  function DropUnsafe(title: string, unicodeAlnum: char -> bool): (r: string)
    ensures |r| <= |title|
    ensures forall c :: c in r <==> c in title && Kept(c, unicodeAlnum)
  {
    if |title| == 0 then ""
    else
      var rest := DropUnsafe(title[1..], unicodeAlnum);
      assert title == [title[0]] + title[1..];
      if Kept(title[0], unicodeAlnum) then [title[0]] + rest else rest
  }

  /** `DropUnsafe` distributes over concatenation, so it keeps the kept
      characters in their order. */
  lemma {:induction false} DropUnsafeAppend(a: string, b: string, unicodeAlnum: char -> bool)
    ensures DropUnsafe(a + b, unicodeAlnum) == DropUnsafe(a, unicodeAlnum) + DropUnsafe(b, unicodeAlnum)
  {
    if |a| > 0 {
      assert (a + b)[1..] == a[1..] + b;
      DropUnsafeAppend(a[1..], b, unicodeAlnum);
    } else {
      assert a + b == b;
    }
  }

  /** A title made only of kept characters passes the first `replace`
      unchanged. */
  lemma {:induction false} DropUnsafeKeepsSafe(title: string, unicodeAlnum: char -> bool)
    requires forall i :: 0 <= i < |title| ==> Kept(title[i], unicodeAlnum)
    ensures DropUnsafe(title, unicodeAlnum) == title
  {
    if |title| > 0 {
      DropUnsafeKeepsSafe(title[1..], unicodeAlnum);
    }
  }

  /** The second `replace` of the title: every space becomes `'_'`. */
  function SpacesToUnderscores(s: string): (r: string)
    ensures |r| == |s|
    ensures forall i :: 0 <= i < |s| ==> r[i] == (if s[i] == ' ' then '_' else s[i])
  {
    if |s| == 0 then "" else [if s[0] == ' ' then '_' else s[0]] + SpacesToUnderscores(s[1..])
  }

  function SafeTitle(title: string, unicodeAlnum: char -> bool): string {
    SpacesToUnderscores(DropUnsafe(title, unicodeAlnum))
  }

  /** The safe title holds only alphanumeric characters and underscores:
      in particular no space, no path separator and no dot, so the saved
      file lands in the working directory with the extension it is
      given. */
  lemma SafeTitleChars(title: string, unicodeAlnum: char -> bool)
    ensures var t := SafeTitle(title, unicodeAlnum);
      && |t| <= |title|
      && (forall i :: 0 <= i < |t| ==> t[i] == '_' || IsAlphanumeric(t[i], unicodeAlnum))
      && ' ' !in t && '/' !in t && '.' !in t
  {
    var d := DropUnsafe(title, unicodeAlnum);
    var t := SafeTitle(title, unicodeAlnum);
    forall i | 0 <= i < |t|
      ensures t[i] == '_' || IsAlphanumeric(t[i], unicodeAlnum)
    {
      assert d[i] in d;
    }
  }

  /** The name of the saved file: the safe title (the video's, else
      `"video"`), `_`, the language and `.srt`. */
  function SubtitleFilename(details: Option<VideoDetails>, lang: string, unicodeAlnum: char -> bool): string {
    var title := match details case Some(d) => d.title case None => "video";
    SafeTitle(title, unicodeAlnum) + "_" + lang + ".srt"
  }

  /** The default title `"video"` is already safe. */
  lemma SafeDefaultTitle(unicodeAlnum: char -> bool)
    ensures SafeTitle("video", unicodeAlnum) == "video"
  {
    var v := "video";
    forall i | 0 <= i < |v|
      ensures Kept(v[i], unicodeAlnum)
    {
    }
    DropUnsafeKeepsSafe(v, unicodeAlnum);
    var t := SpacesToUnderscores(v);
    assert forall i :: 0 <= i < |v| ==> t[i] == v[i];
  }

  /** Without video details the file is `video_<lang>.srt`. */
  lemma DefaultFilename(lang: string, unicodeAlnum: char -> bool)
    ensures SubtitleFilename(None, lang, unicodeAlnum) == "video_" + lang + ".srt"
  {
    SafeDefaultTitle(unicodeAlnum);
    assert "video" + "_" == "video_";
  }

  // ---------------------------------------------------------------------
  // download_subtitle
  // ---------------------------------------------------------------------

  function WatchUrl(id: string): string {
    "https://www.youtube.com/watch?v=" + id
  }

  function TranscriptUrl(track: CaptionTrack): string {
    track.baseUrl + "&fmt=json3"
  }

  function NoCaptionsError(): string {
    "No captions found for this video. (Check if the video actually has CC enabled)"
  }

  /** The file `download_subtitle` saved: its name and its contents. */
  datatype SavedFile = SavedFile(name: string, content: string)

  /** `download_subtitle`. `fetchPlayer` stands for fetching the watch page
      at a URL and reading its player response; `fetchTranscript` for
      fetching a track URL and reading its json3 events; `writeError` is
      the message of `fs::write` when it fails. */
  method DownloadSubtitle(input: string, lang: string,
                          fetchPlayer: string -> Result<PlayerResponse>,
                          fetchTranscript: string -> Result<seq<TranscriptEvent>>,
                          decode: string -> string, unicodeAlnum: char -> bool,
                          writeError: Option<string>)
    returns (r: Result<SavedFile>)
    ensures var id := SubtitleManager.ExtractId(input);
      var player := fetchPlayer(WatchUrl(id));
      && (player.Err? ==> r == Err(player.error))
      && (player.Ok? && player.value.captions.None? ==> r == Err(NoCaptionsError()))
      && (player.Ok? && player.value.captions.Some? ==>
            var tracks := player.value.captions.value;
            var track := FindTrack(tracks, lang);
            && (track.Err? ==> r == Err(track.error))
            && (track.Ok? ==>
                  var events := fetchTranscript(TranscriptUrl(track.value));
                  && (events.Err? ==> r == Err(events.error))
                  && (events.Ok? && writeError.Some? ==> r == Err(writeError.value))
                  && (events.Ok? && writeError.None? ==>
                        r == Ok(SavedFile(SubtitleFilename(player.value.videoDetails, lang, unicodeAlnum),
                                          RenderCues(Cues(events.value, decode)))))))
  {
    // The `?` after the ID step never fires: both its errors are unreachable.
    VideoIdIsExtractId(input);
    var videoId := VideoId(input).value;
    var playerData :- fetchPlayer(WatchUrl(videoId));
    if playerData.captions.None? {
      return Err(NoCaptionsError());
    }
    var track :- FindTrack(playerData.captions.value, lang);
    var events :- fetchTranscript(TranscriptUrl(track));
    // `events_to_srt` writes into a `String`, so its `?` never fires either.
    var srt := EventsToSrt(events, decode);
    var srtContent := srt.value;
    var filename := SubtitleFilename(playerData.videoDetails, lang, unicodeAlnum);
    if writeError.Some? {
      return Err(writeError.value);
    }
    return Ok(SavedFile(filename, srtContent));
  }
}
