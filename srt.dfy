/** The SubRip (`.srt`) layout both subtitle crates write: a cue timestamp
    `HH:MM:SS,mmm` (hours at least two digits, minutes and seconds exactly
    two, milliseconds exactly three) and a cue of four lines — its number,
    `start --> end`, its text, and a blank line.

    The two crates each carry their own copy of `format_timestamp`
    (`yt_subtitle_download/src/lib.rs:61-67` on whole milliseconds,
    `youtube_subtitle_manager/src/lib.rs:34-41` after truncating seconds to
    milliseconds); from the whole-millisecond count on they are the same
    computation, defined here once. */
module Srt {
  import opened Wrappers
  import opened Text

  /** The four fields of a cue timestamp. */
  datatype Fields = Fields(hours: nat, minutes: nat, seconds: nat, millis: nat)

  /** The decomposition `format_timestamp` computes: whole seconds, then
      whole minutes, then whole hours, each by integer division, and the
      remainders kept for the lower fields. The fields recombine to the
      input, and all but the hours are in range. */
  function TimestampFields(ms: nat): (f: Fields)
    ensures f.hours == ms / 3600000
    ensures f.minutes == (ms / 60000) % 60 && f.seconds == (ms / 1000) % 60 && f.millis == ms % 1000
    ensures f.minutes < 60 && f.seconds < 60 && f.millis < 1000
    ensures f.hours * 3600000 + f.minutes * 60000 + f.seconds * 1000 + f.millis == ms
  {
    var seconds := ms / 1000;
    var minutes := seconds / 60;
    var hours := minutes / 60;
    assert ms == seconds * 1000 + ms % 1000;
    assert seconds == minutes * 60 + seconds % 60;
    assert minutes == hours * 60 + minutes % 60;
    assert minutes == ms / 60000;
    assert hours == ms / 3600000;
    Fields(hours, minutes % 60, seconds % 60, ms % 1000)
  }

  /** `format!("{:02}:{:02}:{:02},{:03}", ...)` of the fields of `ms`. */
  function FormatTimestamp(ms: nat): string
  {
    var f := TimestampFields(ms);
    ZeroPad(f.hours, 2) + ":" + ZeroPad(f.minutes, 2) + ":" + ZeroPad(f.seconds, 2) + "," + ZeroPad(f.millis, 3)
  }

  /** Reads a cue timestamp back: hours of at least two digits, then
      `:`, minutes and `:`, seconds of two digits below 60, then `,` and
      milliseconds of three digits. */
  function ParseTimestamp(s: string): (r: Option<nat>)
  {
    if |s| < 12 || s[|s| - 10] != ':' || s[|s| - 7] != ':' || s[|s| - 4] != ',' then None
    else ParseFields(s[..|s| - 10], s[|s| - 9..|s| - 7], s[|s| - 6..|s| - 4], s[|s| - 3..])
  }

  /** The milliseconds the four digit fields of a timestamp denote. */
  function ParseFields(h: string, m: string, sec: string, ms: string): Option<nat>
  {
    if && AllDigits(h) && AllDigits(m) && AllDigits(sec) && AllDigits(ms)
       && DigitsValue(m) < 60 && DigitsValue(sec) < 60
    then Some(DigitsValue(h) * 3600000 + DigitsValue(m) * 60000 + DigitsValue(sec) * 1000 + DigitsValue(ms))
    else None
  }

  /** The padding of the four fields: hours at least two digits, minutes
      and seconds exactly two, milliseconds exactly three, each denoting
      its field's value. */
  lemma FieldPadding(ms: nat)
    ensures var f := TimestampFields(ms);
      && |ZeroPad(f.hours, 2)| >= 2 && AllDigits(ZeroPad(f.hours, 2)) && DigitsValue(ZeroPad(f.hours, 2)) == f.hours
      && |ZeroPad(f.minutes, 2)| == 2 && AllDigits(ZeroPad(f.minutes, 2)) && DigitsValue(ZeroPad(f.minutes, 2)) == f.minutes
      && |ZeroPad(f.seconds, 2)| == 2 && AllDigits(ZeroPad(f.seconds, 2)) && DigitsValue(ZeroPad(f.seconds, 2)) == f.seconds
      && |ZeroPad(f.millis, 3)| == 3 && AllDigits(ZeroPad(f.millis, 3)) && DigitsValue(ZeroPad(f.millis, 3)) == f.millis
  {
    var f := TimestampFields(ms);
    ZeroPadValue(f.hours, 2);
    ZeroPadValue(f.minutes, 2);
    ZeroPadValue(f.seconds, 2);
    ZeroPadValue(f.millis, 3);
    NatToStringShort(f.minutes);
    NatToStringShort(f.seconds);
    NatToStringShort(f.millis);
  }

  /** A string of digits holds no separator of a timestamp or a cue. */
  lemma DigitsHaveNoSeparator(s: string)
    requires AllDigits(s)
    ensures ':' !in s && ',' !in s && '\n' !in s
  {
  }

  /** Reading four fields laid out as a timestamp reads exactly those
      fields. */
  lemma ParseTimestampLayout(h: string, m: string, s: string, z: string)
    requires |h| >= 2 && |m| == 2 && |s| == 2 && |z| == 3
    ensures ParseTimestamp(h + ":" + m + ":" + s + "," + z) == ParseFields(h, m, s, z)
  {
    var str := h + ":" + m + ":" + s + "," + z;
    var n := |str|;
    assert str[..n - 10] == h;
    assert str[n - 9..n - 7] == m;
    assert str[n - 6..n - 4] == s;
    assert str[n - 3..] == z;
    assert str[n - 10] == ':' && str[n - 7] == ':' && str[n - 4] == ',';
  }

  lemma ParseFieldsValue(h: string, m: string, s: string, z: string)
    requires AllDigits(h) && AllDigits(m) && AllDigits(s) && AllDigits(z)
    requires DigitsValue(m) < 60 && DigitsValue(s) < 60
    ensures ParseFields(h, m, s, z).Some?
    ensures ParseFields(h, m, s, z).value
              == DigitsValue(h) * 3600000 + DigitsValue(m) * 60000 + DigitsValue(s) * 1000 + DigitsValue(z)
  {
  }

  /** Round trip: reading a formatted timestamp gives the milliseconds
      back, so no two instants share a timestamp. */
  lemma ParseFormatTimestamp(ms: nat)
    ensures ParseTimestamp(FormatTimestamp(ms)) == Some(ms)
  {
    var f := TimestampFields(ms);
    var h, m, s, z := ZeroPad(f.hours, 2), ZeroPad(f.minutes, 2), ZeroPad(f.seconds, 2), ZeroPad(f.millis, 3);
    FieldPadding(ms);
    ParseTimestampLayout(h, m, s, z);
    ParseFieldsValue(h, m, s, z);
  }

  lemma FormatTimestampInjective(a: nat, b: nat)
    requires FormatTimestamp(a) == FormatTimestamp(b)
    ensures a == b
  {
    ParseFormatTimestamp(a);
    ParseFormatTimestamp(b);
  }

  // ---------------------------------------------------------------------
  // Cues
  // ---------------------------------------------------------------------

  /** One subtitle cue: its number, its start and end in milliseconds, and
      its text. */
  datatype Cue = Cue(number: nat, startMs: nat, endMs: nat, text: string)

  /** The four `writeln!` of one cue: the number, the time line, the text
      and an empty line. */
  function RenderCue(c: Cue): string
  {
    NatToString(c.number) + "\n" + FormatTimestamp(c.startMs) + " --> " + FormatTimestamp(c.endMs) + "\n"
      + c.text + "\n\n"
  }

  /** The cues one after the other, as the output buffer holds them. */
  function RenderCues(cues: seq<Cue>): string
  {
    if |cues| == 0 then "" else RenderCues(cues[..|cues| - 1]) + RenderCue(cues[|cues| - 1])
  }

  lemma RenderCuesAppend(cues: seq<Cue>, c: Cue)
    ensures RenderCues(cues + [c]) == RenderCues(cues) + RenderCue(c)
  {
    assert (cues + [c])[..|cues|] == cues;
  }

  /** Cues numbered consecutively from 1. */
  predicate NumberedFromOne(cues: seq<Cue>) {
    forall k :: 0 <= k < |cues| ==> cues[k].number == k + 1
  }

  lemma TimestampHasNoNewline(ms: nat)
    ensures '\n' !in FormatTimestamp(ms)
  {
    var f := TimestampFields(ms);
    FieldPadding(ms);
    DigitsHaveNoSeparator(ZeroPad(f.hours, 2));
    DigitsHaveNoSeparator(ZeroPad(f.minutes, 2));
    DigitsHaveNoSeparator(ZeroPad(f.seconds, 2));
    DigitsHaveNoSeparator(ZeroPad(f.millis, 3));
  }
}
