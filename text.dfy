/** String operations of the Rust standard library that the modelled
    program relies on: decimal formatting of unsigned integers (`{}` and
    `{:0N}`), `str::parse::<usize>`, `str::split` with a character
    pattern, `str::find` / `str::contains` with a string pattern, and
    `[String]::join`. */
module Text {
  import opened Wrappers

  /** The largest `usize` on the 64-bit targets the program is built for. */
  const USIZE_MAX: nat := 0xFFFF_FFFF_FFFF_FFFF

  // ---------------------------------------------------------------------
  // Decimal digits
  // ---------------------------------------------------------------------

  predicate IsDigit(c: char) {
    '0' <= c <= '9'
  }

  predicate AllDigits(s: string) {
    forall i :: 0 <= i < |s| ==> IsDigit(s[i])
  }

  function DigitValue(c: char): (d: nat)
    requires IsDigit(c)
    ensures d < 10
  {
    c as int - '0' as int
  }

  function DigitChar(d: nat): (c: char)
    requires d < 10
    ensures IsDigit(c) && DigitValue(c) == d
  {
    ('0' as int + d) as char
  }

  /** The number a string of decimal digits denotes, most significant digit first. */
  function DigitsValue(s: string): nat
    requires AllDigits(s)
  {
    if |s| == 0 then 0 else DigitsValue(s[..|s| - 1]) * 10 + DigitValue(s[|s| - 1])
  }

  /** `format!("{}", n)` for an unsigned integer: its shortest decimal form. */
  function NatToString(n: nat): (s: string)
    ensures |s| >= 1 && AllDigits(s)
    ensures DigitsValue(s) == n
    ensures |s| > 1 ==> s[0] != '0'
    decreases n
  {
    if n < 10 then [DigitChar(n)]
    else
      var prefix := NatToString(n / 10);
      var s := prefix + [DigitChar(n % 10)];
      assert s[..|s| - 1] == prefix;
      s
  }

  lemma NatToStringInjective(a: nat, b: nat)
    requires NatToString(a) == NatToString(b)
    ensures a == b
  {
  }

  lemma {:induction false} NatToStringShort(n: nat)
    requires n < 1000
    ensures |NatToString(n)| <= 3
    ensures n < 100 ==> |NatToString(n)| <= 2
    ensures n < 10 ==> |NatToString(n)| == 1
  {
    if n >= 10 {
      NatToStringShort(n / 10);
    }
  }

  /** `format!("{:0w}", n)`: the decimal form of `n`, left-padded with
      zeros to at least `w` characters. */
  function ZeroPad(n: nat, w: nat): (s: string)
  {
    var digits := NatToString(n);
    if |digits| >= w then digits else seq(w - |digits|, _ => '0') + digits
  }

  lemma {:induction false} LeadingZeroValue(s: string)
    requires AllDigits(s)
    ensures AllDigits(['0'] + s) && DigitsValue(['0'] + s) == DigitsValue(s)
  {
    var t := ['0'] + s;
    if |s| > 0 {
      assert t[..|t| - 1] == ['0'] + s[..|s| - 1];
      LeadingZeroValue(s[..|s| - 1]);
    }
  }

  lemma {:induction false} LeadingZerosValue(k: nat, s: string)
    requires AllDigits(s)
    ensures AllDigits(seq(k, _ => '0') + s)
    ensures DigitsValue(seq(k, _ => '0') + s) == DigitsValue(s)
  {
    if k > 0 {
      LeadingZerosValue(k - 1, s);
      var rest := seq(k - 1, _ => '0') + s;
      assert seq(k, _ => '0') + s == ['0'] + rest;
      LeadingZeroValue(rest);
    } else {
      assert seq(k, _ => '0') + s == s;
    }
  }

  /** Zero padding keeps the value and reaches the requested width, and
      it never pads a number that already has `w` digits. */
  lemma ZeroPadValue(n: nat, w: nat)
    ensures AllDigits(ZeroPad(n, w)) && DigitsValue(ZeroPad(n, w)) == n
    ensures |ZeroPad(n, w)| == if |NatToString(n)| >= w then |NatToString(n)| else w
  {
    var digits := NatToString(n);
    if |digits| < w {
      LeadingZerosValue(w - |digits|, digits);
    }
  }

  // ---------------------------------------------------------------------
  // str::parse::<usize>
  // ---------------------------------------------------------------------

  /** Rust's `usize::from_str`: an optional `+`, then at least one ASCII
      digit and nothing else, whose value fits in a `usize`. */
  function ParseUsize(s: string): (r: Option<nat>)
    ensures r.Some? ==> r.value <= USIZE_MAX
  {
    var digits := if |s| > 0 && s[0] == '+' then s[1..] else s;
    if |digits| > 0 && AllDigits(digits) && DigitsValue(digits) <= USIZE_MAX
    then Some(DigitsValue(digits))
    else None
  }

  /** Parsing what `{}` printed gives the number back. */
  lemma ParseUsizeNatToString(n: nat)
    requires n <= USIZE_MAX
    ensures ParseUsize(NatToString(n)) == Some(n)
  {
  }

  /** A string `parse::<usize>` accepts contains no `-` (it is only a
      `+` sign and digits). */
  lemma ParseUsizeHasNoDash(s: string)
    requires ParseUsize(s).Some?
    ensures '-' !in s
  {
  }

  // ---------------------------------------------------------------------
  // str::split with a char pattern, and join
  // ---------------------------------------------------------------------

  /** The position of the first `c` in `s`. */
  function FindChar(s: string, c: char): (r: Option<nat>)
    ensures r.Some? ==> r.value < |s| && s[r.value] == c && c !in s[..r.value]
    ensures r.None? ==> c !in s
  {
    if |s| == 0 then None
    else if s[0] == c then Some(0)
    else
      match FindChar(s[1..], c)
      case None => None
      case Some(i) =>
        assert s[..i + 1] == [s[0]] + s[1..][..i];
        Some(i + 1)
  }

  /** `parts.join(sep)`. */
  function Join(parts: seq<string>, sep: string): string
  {
    if |parts| == 0 then ""
    else if |parts| == 1 then parts[0]
    else parts[0] + sep + Join(parts[1..], sep)
  }

  lemma JoinCons(head: string, rest: seq<string>, sep: string)
    requires |rest| >= 1
    ensures Join([head] + rest, sep) == head + sep + Join(rest, sep)
  {
    assert ([head] + rest)[1..] == rest;
  }

  /** `s.split(c).collect()`: the pieces between the occurrences of `c`;
      always at least one piece, none containing `c`. */
  function Split(s: string, c: char): (parts: seq<string>)
    ensures |parts| >= 1
    ensures forall i :: 0 <= i < |parts| ==> c !in parts[i]
    decreases |s|
  {
    match FindChar(s, c)
    case None => [s]
    case Some(i) => [s[..i]] + Split(s[i + 1..], c)
  }

  /** Joining the pieces of `s.split(c)` with `c` gives `s` back. */
  lemma {:induction false} JoinSplit(s: string, c: char)
    ensures Join(Split(s, c), [c]) == s
    decreases |s|
  {
    match FindChar(s, c)
    case None =>
    case Some(i) =>
      var rest := s[i + 1..];
      SplitAt(s, c, i);
      JoinSplit(rest, c);
      JoinCons(s[..i], Split(rest, c), [c]);
      assert s == s[..i] + [c] + rest;
  }

  /** Where the first `c` is at `i`, the pieces are the text before it and
      then the pieces of the text after it. */
  lemma SplitAt(s: string, c: char, i: nat)
    requires FindChar(s, c) == Some(i)
    ensures i < |s| && Split(s, c) == [s[..i]] + Split(s[i + 1..], c)
  {
  }

  lemma {:induction false} FindCharAfterPrefix(a: string, b: string, c: char)
    requires c !in a
    ensures FindChar(a + [c] + b, c) == Some(|a|)
  {
    if |a| > 0 {
      assert (a + [c] + b)[1..] == a[1..] + [c] + b;
      FindCharAfterPrefix(a[1..], b, c);
    }
  }

  /** Splitting pieces that do not contain the separator, after joining
      them with it, gives the same pieces back. */
  lemma {:induction false} SplitJoin(parts: seq<string>, c: char)
    requires |parts| >= 1
    requires forall i :: 0 <= i < |parts| ==> c !in parts[i]
    ensures Split(Join(parts, [c]), c) == parts
  {
    if |parts| == 1 {
      assert FindChar(parts[0], c) == None;
    } else {
      var rest := Join(parts[1..], [c]);
      var s := parts[0] + [c] + rest;
      assert parts == [parts[0]] + parts[1..];
      JoinCons(parts[0], parts[1..], [c]);
      FindCharAfterPrefix(parts[0], rest, c);
      SplitAt(s, c, |parts[0]|);
      assert s[..|parts[0]|] == parts[0];
      assert s[|parts[0]| + 1..] == rest;
      SplitJoin(parts[1..], c);
    }
  }

  // ---------------------------------------------------------------------
  // str::find / str::contains with a string pattern
  // ---------------------------------------------------------------------

  predicate OccursAt(s: string, pat: string, i: nat) {
    i + |pat| <= |s| && s[i..i + |pat|] == pat
  }

  /** No occurrence in the first `j` positions of a suffix means none in
      the same positions of the whole. */
  lemma NoOccurrenceInSuffix(s: string, k: nat, pat: string, j: nat)
    requires k <= |s|
    requires forall q: nat :: q < j ==> !OccursAt(s[k..], pat, q)
    ensures forall q: nat :: k <= q < k + j ==> !OccursAt(s, pat, q)
  {
    forall q: nat | k <= q < k + j
      ensures !OccursAt(s, pat, q)
    {
      OccursAtSuffix(s, k, pat, q - k);
    }
  }

  /** A slice of a slice is a slice of the whole. */
  lemma SliceOfSlice(s: string, a: nat, b: nat, i: nat, j: nat)
    requires a <= b <= |s| && i <= j <= b - a
    ensures s[a..b][i..j] == s[a + i..a + j]
  {
    forall k | 0 <= k < j - i
      ensures s[a..b][i..j][k] == s[a + i..a + j][k]
    {
    }
  }

  /** `s.contains(pat)`: whether `find` finds it. */
  predicate Contains(s: string, pat: string) {
    Find(s, pat).Some?
  }

  /** `s` contains `pat` exactly when `pat` occurs somewhere in `s`. */
  lemma ContainsIff(s: string, pat: string)
    ensures Contains(s, pat) <==> exists i: nat :: i <= |s| && OccursAt(s, pat, i)
  {
    if Contains(s, pat) {
      assert OccursAt(s, pat, Find(s, pat).value);
    }
  }

  /** The first occurrence of `pat` in `s` at or after `from`. */
  function FindFrom(s: string, pat: string, from: nat): (r: Option<nat>)
    requires from <= |s|
    ensures r.Some? ==> from <= r.value && OccursAt(s, pat, r.value)
    ensures r.Some? ==> forall j: nat :: from <= j < r.value ==> !OccursAt(s, pat, j)
    ensures r.None? ==> forall j: nat :: from <= j ==> !OccursAt(s, pat, j)
    decreases |s| - from
  {
    if from + |pat| > |s| then None
    else if s[from..from + |pat|] == pat then Some(from)
    else FindFrom(s, pat, from + 1)
  }

  /** `s.find(pat)`: the first occurrence of `pat` in `s`, if any. */
  function Find(s: string, pat: string): (r: Option<nat>)
    ensures r.Some? ==> OccursAt(s, pat, r.value)
    ensures r.Some? ==> forall j: nat :: j < r.value ==> !OccursAt(s, pat, j)
    ensures r.None? ==> forall j: nat :: !OccursAt(s, pat, j)
  {
    FindFrom(s, pat, 0)
  }

  /** Occurrences in a suffix are occurrences in the whole string, shifted. */
  lemma OccursAtSuffix(s: string, k: nat, pat: string, q: nat)
    requires k <= |s|
    ensures OccursAt(s[k..], pat, q) <==> OccursAt(s, pat, k + q)
  {
    if k + q + |pat| <= |s| {
      assert s[k..][q..q + |pat|] == s[k + q..k + q + |pat|];
    }
  }

  // ---------------------------------------------------------------------
  // str::split with a string pattern, and the iterator's nth / next
  // ---------------------------------------------------------------------

  /** `s.split(pat)` for a non-empty pattern: the pieces between the
      non-overlapping occurrences of `pat`, found left to right. There are
      at least two pieces exactly when `s` contains `pat`. */
  function SplitOn(s: string, pat: string): (parts: seq<string>)
    requires |pat| > 0
    ensures |parts| >= 1
    ensures |parts| >= 2 <==> Contains(s, pat)
    decreases |s|
  {
    match Find(s, pat)
    case None => [s]
    case Some(i) => [s[..i]] + SplitOn(s[i + |pat|..], pat)
  }

  /** The `n`-th item of an iterator, if it has that many (`nth`; `next`
      on a fresh iterator is `Nth(xs, 0)`). */
  function Nth<T>(xs: seq<T>, n: nat): (r: Option<T>)
    ensures r.Some? <==> n < |xs|
    ensures r.Some? ==> r.value == xs[n]
  {
    if n < |xs| then Some(xs[n]) else None
  }

  /** The second piece of `s.split(pat)`: what lies between the first
      occurrence of `pat` and the next one (or the end). */
  lemma SplitOnSecond(s: string, pat: string, start: nat)
    requires |pat| > 0 && Contains(s, pat)
    requires start == Find(s, pat).value + |pat|
    ensures start <= |s|
    ensures SplitOn(s, pat)[1] == s[start..start + FindOrEnd(s[start..], pat)]
  {
    var i := Find(s, pat).value;
    var rest := s[i + |pat|..];
    assert SplitOn(s, pat) == [s[..i]] + SplitOn(rest, pat);
    assert SplitOn(rest, pat)[0] == rest[..FindOrEnd(rest, pat)];
  }

  /** From `start`, the text up to the next occurrence of `pat` (or the
      end) holds no occurrence of `pat`, and the next occurrence, if any,
      is where it stops. */
  lemma UpToNextOccurrence(s: string, pat: string, start: nat)
    requires start <= |s|
    ensures var j := FindOrEnd(s[start..], pat);
      && start + j <= |s|
      && (forall q: nat :: start <= q < start + j ==> !OccursAt(s, pat, q))
      && (start + j == |s| || OccursAt(s, pat, start + j))
  {
    var j := FindOrEnd(s[start..], pat);
    NoOccurrenceInSuffix(s, start, pat, j);
    OccursAtSuffix(s, start, pat, j);
  }

  /** `piece` sits in `s` at `start`, holds neither `c` nor an occurrence
      of `pat`, and stops at the end of `s`, at a `c`, or at the next
      occurrence of `pat`. */
  predicate CutAt(s: string, pat: string, c: char, start: nat, piece: string) {
    && start + |piece| <= |s| && s[start..start + |piece|] == piece
    && c !in piece
    && (forall q: nat :: start <= q < start + |piece| ==> !OccursAt(s, pat, q))
    && (start + |piece| == |s| || s[start + |piece|] == c || OccursAt(s, pat, start + |piece|))
  }

  /** Cutting the text from `start` up to the next `pat` (or the end) at
      its first `c` gives such a piece. */
  lemma WindowCut(s: string, pat: string, c: char, start: nat, piece: string)
    requires start <= |s|
    requires piece == Split(s[start..start + FindOrEnd(s[start..], pat)], c)[0]
    ensures CutAt(s, pat, c, start, piece)
  {
    var j := FindOrEnd(s[start..], pat);
    UpToNextOccurrence(s, pat, start);
    FirstPieceOfWindow(s, start, j, c);
  }

  /** Cutting the second piece of `s.split(pat)` at its first `c`. */
  lemma SecondPieceCut(s: string, pat: string, c: char, piece: string)
    requires |pat| > 0 && Contains(s, pat)
    requires piece == Split(SplitOn(s, pat)[1], c)[0]
    ensures CutAt(s, pat, c, Find(s, pat).value + |pat|, piece)
  {
    var start := Find(s, pat).value + |pat|;
    SplitOnSecond(s, pat, start);
    WindowCut(s, pat, c, start, piece);
  }

  /** Where `find` stops: the first occurrence of `pat`, or the end. */
  function FindOrEnd(s: string, pat: string): (j: nat)
    ensures j <= |s|
    ensures j == |s| || OccursAt(s, pat, j)
    ensures forall q: nat :: q < j ==> !OccursAt(s, pat, q)
  {
    match Find(s, pat)
    case None => |s|
    case Some(i) => i
  }

  /** The first piece of `s.split(c)`: everything before the first `c`. */
  lemma SplitFirst(s: string, c: char)
    ensures Split(s, c)[0] == match FindChar(s, c) case None => s case Some(k) => s[..k]
  {
  }

  /** The first `c`-piece of the window `s[start..start + j]` is a prefix
      of the window that holds no `c` and stops at a `c` or at the end of
      the window. */
  lemma FirstPieceOfWindow(s: string, start: nat, j: nat, c: char)
    requires start + j <= |s|
    ensures var id := Split(s[start..start + j], c)[0];
      && |id| <= j && s[start..start + |id|] == id && c !in id
      && (|id| == j || s[start + |id|] == c)
  {
    var w := s[start..start + j];
    SplitFirst(w, c);
    var id := Split(w, c)[0];
    assert id == w[..|id|];
    assert w[..|id|] == s[start..start + |id|];
    if |id| < j {
      assert w[|id|] == s[start + |id|];
    }
  }
}
