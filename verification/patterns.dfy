/**
 * The regular expressions of the parsers, each written out as a string function.
 *
 * Every pattern is searched the way `NSRegularExpression.firstMatch` searches: the
 * leftmost start position where the pattern matches wins, and only that match is
 * used. `.` is taken to match any character: every input is a single line.
 */
module Patterns {
  import opened Wrappers
  import opened Text

  /** The patterns used by the parsers (literal kind markers included). */
  datatype Regex =
    | Duration            // #EXTINF:(\-*\d+)
    | Tag(key: string)    // key="(.?|.+?)"
    | SeasonEpisodeMarker // " S(\d+) E(\d+)"
    | Literal(text: string)

  const InfoPrefix: string := "#EXTINF:"

  /** The tag keys every attribute parser looks for. */
  const IdKey: string := "tvg-id"
  const NameKey: string := "tvg-name"
  const CountryKey: string := "tvg-country"
  const LanguageKey: string := "tvg-language"
  const LogoKey: string := "tvg-logo"
  const ChannelNumberKey: string := "tvg-chno"
  const ShiftKey: string := "tvg-shift"
  const GroupTitleKey: string := "group-title"

  /** The path markers of the kind classifiers. */
  const SeriesMarker: string := "/series/"
  const MoviesMarker: string := "/movies/"
  const LiveMarker: string := "/live/"

  /** Length of the run of `-` starting at `i`. */
  function HyphenRun(s: string, i: nat): (n: nat)
    ensures i + n <= |s| || n == 0
    ensures forall k :: i <= k < i + n ==> s[k] == '-'
    ensures i + n < |s| ==> s[i + n] != '-'
    decreases |s| - i
  {
    if i < |s| && s[i] == '-' then 1 + HyphenRun(s, i + 1) else 0
  }

  /** Length of the run of ASCII digits starting at `i` (what a greedy `\d+` or `\d*` takes). */
  function DigitRun(s: string, i: nat): (n: nat)
    ensures i + n <= |s| || n == 0
    ensures forall k :: i <= k < i + n ==> IsDigit(s[k])
    ensures i + n < |s| ==> !IsDigit(s[i + n])
    decreases |s| - i
  {
    if i < |s| && IsDigit(s[i]) then 1 + DigitRun(s, i + 1) else 0
  }

  /** The first `"` at or after `from`. */
  function NextQuote(s: string, from: nat): (r: Option<nat>)
    ensures r.Some? ==> from <= r.value < |s| && s[r.value] == '"'
    ensures r.Some? ==> forall k :: from <= k < r.value ==> s[k] != '"'
    ensures r.None? ==> forall k :: from <= k < |s| ==> s[k] != '"'
    decreases |s| - from
  {
    if from >= |s| then None
    else if s[from] == '"' then Some(from)
    else NextQuote(s, from + 1)
  }

  /**
   * What the group `(.?|.+?)"` captures when it starts at `q`. The first alternative
   * tries one character and then the closing quote, so text starting with two quotes
   * yields a single quote; otherwise the value runs to the next quote.
   */
  function TagValueAt(s: string, q: nat): (r: Option<string>)
    ensures r.Some? && r.value != "\"" ==> '"' !in r.value
    ensures r.Some? && r.value != "\"" ==> q + |r.value| < |s| && s[q..q + |r.value|] == r.value
                                           && s[q + |r.value|] == '"'
    ensures r.None? <==> forall k :: q <= k < |s| ==> s[k] != '"'
    ensures r == Some("\"") <==> q + 1 < |s| && s[q] == '"' && s[q + 1] == '"'
  {
    if q + 1 < |s| && s[q] == '"' && s[q + 1] == '"' then Some("\"")
    else match NextQuote(s, q)
      case None => None
      case Some(j) => Some(s[q..j])
  }

  /** The spans of one match of " S(\d+) E(\d+)". */
  datatype SeMatch = SeMatch(start: nat, end: nat, season: string, episode: string)

  function SeasonEpisodeAt(s: string, p: nat): (r: Option<SeMatch>)
    ensures r.Some? ==> r.value.start == p && p < r.value.end <= |s|
    ensures r.Some? ==> s[p..r.value.end] == " S" + r.value.season + " E" + r.value.episode
    ensures r.Some? ==> |r.value.season| > 0 && AllDigits(r.value.season)
    ensures r.Some? ==> |r.value.episode| > 0 && AllDigits(r.value.episode)
    ensures r.Some? ==> r.value.end == |s| || !IsDigit(s[r.value.end])
  {
    if p + 2 <= |s| && s[p] == ' ' && s[p + 1] == 'S' then
      var d1 := DigitRun(s, p + 2);
      var m := p + 2 + d1;
      if d1 > 0 && m + 2 <= |s| && s[m] == ' ' && s[m + 1] == 'E' then
        var d2 := DigitRun(s, m + 2);
        if d2 > 0 then
          var r := SeMatch(p, m + 2 + d2, s[p + 2..m], s[m + 2..m + 2 + d2]);
          assert AllDigits(r.season) && AllDigits(r.episode);
          assert s[p..r.end] == " S" + r.season + " E" + r.episode;
          Some(r)
        else None
      else None
    else None
  }

  /** Whether `re` matches with its match starting at `p`. */
  predicate MatchesAt(re: Regex, s: string, p: nat) {
    match re
    case Duration =>
      var q := p + |InfoPrefix|;
      q <= |s| && s[p..q] == InfoPrefix && DigitRun(s, q + HyphenRun(s, q)) > 0
    case Tag(key) =>
      var q := p + |key| + 2;
      q <= |s| && s[p..q] == key + "=\"" && TagValueAt(s, q).Some?
    case SeasonEpisodeMarker =>
      SeasonEpisodeAt(s, p).Some?
    case Literal(t) =>
      p + |t| <= |s| && s[p..p + |t|] == t
  }

  /** The leftmost match position at or after `from`. */
  function FirstMatch(re: Regex, s: string, from: nat): (r: Option<nat>)
    ensures r.Some? ==> from <= r.value <= |s| && MatchesAt(re, s, r.value)
    ensures r.Some? ==> forall q :: from <= q < r.value ==> !MatchesAt(re, s, q)
    ensures r.None? ==> forall q :: from <= q <= |s| ==> !MatchesAt(re, s, q)
    decreases |s| + 1 - from
  {
    if from > |s| then None
    else if MatchesAt(re, s, from) then Some(from)
    else FirstMatch(re, s, from + 1)
  }

  /** Every match starts within the text. */
  lemma MatchWithin(re: Regex, s: string, p: nat)
    requires MatchesAt(re, s, p)
    ensures p <= |s|
  {
  }

  /** A search that finds nothing from the start finds nothing anywhere. */
  lemma NoMatchAnywhere(re: Regex, s: string)
    requires FirstMatch(re, s, 0).None?
    ensures forall p: nat :: !MatchesAt(re, s, p)
  {
    forall p: nat | MatchesAt(re, s, p) ensures p <= |s| {
      MatchWithin(re, s, p);
    }
  }

  /** The capture of `#EXTINF:(\-*\d+)`: the hyphens and the digits after the first `#EXTINF:` that has any digits. */
  function DurationCapture(s: string): (r: Option<string>)
    ensures r.Some? <==> exists p: nat :: MatchesAt(Duration, s, p)
    ensures r.Some? ==> |r.value| > 0 && IsDigit(r.value[|r.value| - 1])
    ensures r.Some? ==> HyphensThenDigits(r.value)
  {
    match FirstMatch(Duration, s, 0)
    case None =>
      NoMatchAnywhere(Duration, s);
      None
    case Some(p) =>
      var q := p + |InfoPrefix|;
      var h := HyphenRun(s, q);
      var d := DigitRun(s, q + h);
      CaptureShape(s, q, h, d);
      Some(s[q..q + h + d])
  }

  /** `h` hyphens then `d > 0` digits, cut from `q`, have the capture's shape. */
  lemma CaptureShape(s: string, q: nat, h: nat, d: nat)
    requires q + h + d <= |s| && d > 0
    requires forall k :: q <= k < q + h ==> s[k] == '-'
    requires forall k :: q + h <= k < q + h + d ==> IsDigit(s[k])
    ensures HyphensThenDigits(s[q..q + h + d])
  {
    var c := s[q..q + h + d];
    forall k | 0 <= k < h ensures c[k] == '-' {
      assert c[k] == s[q + k];
    }
    forall k | h <= k < |c| ensures IsDigit(c[k]) {
      assert c[k] == s[q + k];
    }
    HyphensThenDigitsOf(c, h);
  }

  /** Hyphens up to `h`, then at least one digit and only digits, is the capture's shape. */
  lemma HyphensThenDigitsOf(c: string, h: nat)
    requires h < |c|
    requires forall k :: 0 <= k < h ==> c[k] == '-'
    requires forall k :: h <= k < |c| ==> IsDigit(c[k])
    ensures HyphenRun(c, 0) == h && HyphensThenDigits(c)
  {
    HyphenRunIs(c, 0, h);
    assert forall k :: 0 <= k < |c[h..]| ==> c[h..][k] == c[h + k];
  }

  /** The shape of a `\-*\d+` capture: a run of hyphens, then at least one digit and nothing else. */
  predicate HyphensThenDigits(c: string) {
    HyphenRun(c, 0) < |c| && AllDigits(c[HyphenRun(c, 0)..])
  }

  /**
   * `Int(_:)` on a `\-*\d+` capture: no hyphen or one hyphen gives the signed value
   * when it fits in 64 bits; two or more hyphens never convert.
   */
  lemma CaptureConverts(c: string)
    requires HyphensThenDigits(c)
    ensures var v: int := DigitsValue(c[HyphenRun(c, 0)..]);
            && (HyphenRun(c, 0) == 0 ==> ParseInt(c) == if v <= Int64Max then Some(v) else None)
            && (HyphenRun(c, 0) == 1 ==> ParseInt(c) == if v <= -Int64Min then Some(-v) else None)
            && (HyphenRun(c, 0) >= 2 ==> ParseInt(c).None?)
  {
    var h := HyphenRun(c, 0);
    if h == 0 {
      assert c[h..] == c;
    } else if h == 1 {
      assert c[0] == '-' && c[h..] == c[1..];
    } else {
      assert c[0] == '-' && !IsDigit(c[1..][0]);
    }
  }

  /** The capture of `.*,(.+?)$`: the text after the last comma that still has a character after it. */
  function NameCapture(s: string): (r: Option<string>)
    ensures r.None? <==> forall k :: 0 <= k < |s| - 1 ==> s[k] != ','
    ensures r.Some? ==> 0 < |r.value| < |s| && s[|s| - |r.value| - 1] == ','
                        && r.value == s[|s| - |r.value|..]
    ensures r.Some? ==> forall k :: 0 <= k < |r.value| - 1 ==> r.value[k] != ','
  {
    if |s| < 2 then None
    else match LastComma(s, |s| - 1)
      case None => None
      case Some(i) => Some(s[i + 1..])
  }

  /**
   * `r` is what `.*,(.+?)$` leaves of `input`, or "" without a match: empty exactly
   * when no comma comes before the last character, and otherwise the text after a
   * comma that runs to the end with no comma before its own last character.
   */
  predicate CommaName(input: string, r: string) {
    && (r == [] <==> forall k :: 0 <= k < |input| - 1 ==> input[k] != ',')
    && (r != [] ==> |r| < |input| && input[|input| - |r| - 1] == ',' && r == input[|input| - |r|..])
    && (forall k :: 0 <= k < |r| - 1 ==> r[k] != ',')
  }

  /**
   * What every revision's `extractName` returns: the text after the last comma that
   * has something after it, or "" when there is no such comma.
   */
  function NameOrEmpty(input: string): (r: string)
    ensures r == [] <==> forall k :: 0 <= k < |input| - 1 ==> input[k] != ','
    ensures r != [] ==> |r| < |input| && input[|input| - |r| - 1] == ',' && r == input[|input| - |r|..]
    ensures forall k :: 0 <= k < |r| - 1 ==> r[k] != ','
  {
    NameCapture(input).GetOr("")
  }

  /** The last comma strictly before `n`. */
  function LastComma(s: string, n: nat): (r: Option<nat>)
    requires n <= |s|
    ensures r.Some? ==> r.value < n && s[r.value] == ','
    ensures r.Some? ==> forall k :: r.value < k < n ==> s[k] != ','
    ensures r.None? ==> forall k :: 0 <= k < n ==> s[k] != ','
  {
    if n == 0 then None
    else if s[n - 1] == ',' then Some(n - 1)
    else LastComma(s, n - 1)
  }

  /** `p` is the first position where `m` holds. */
  ghost predicate Leftmost(m: nat -> bool, p: nat) {
    m(p) && forall q: nat :: q < p ==> !m(q)
  }

  /**
   * `v` is what a search over the positions where `m` holds reads with `group`:
   * nothing when `m` holds nowhere, otherwise the group at the first such position.
   */
  ghost predicate FoundBy(m: nat -> bool, group: nat -> Option<string>, v: Option<string>) {
    && (v.None? <==> forall p: nat :: !m(p))
    && (v.Some? ==> exists p: nat :: Leftmost(m, p) && v == group(p))
  }

  /**
   * `v` is what `key="(.?|.+?)"` captures in `s`: nothing when the pattern matches
   * nowhere, otherwise the group at the leftmost match.
   */
  ghost predicate TagFound(s: string, key: string, v: Option<string>) {
    FoundBy(TagAt(s, key), TagGroup(s, key), v)
  }

  /** The positions where `key="(.?|.+?)"` matches. */
  function TagAt(s: string, key: string): nat -> bool {
    (p: nat) => MatchesAt(Tag(key), s, p)
  }

  /** The group of a match of `key="(.?|.+?)"` at `p`. */
  function TagGroup(s: string, key: string): nat -> Option<string> {
    (p: nat) => TagValueAt(s, p + |key| + 2)
  }

  /** There is at most one first position. */
  lemma LeftmostUnique(m: nat -> bool, p: nat, q: nat)
    requires Leftmost(m, p) && Leftmost(m, q)
    ensures p == q
  {
    assert p < q ==> !m(p);
    assert q < p ==> !m(q);
  }

  /** The first position a found value comes from. */
  lemma LeftmostOf(m: nat -> bool, group: nat -> Option<string>, v: Option<string>) returns (p: nat)
    requires FoundBy(m, group, v) && v.Some?
    ensures Leftmost(m, p) && v == group(p)
  {
    p :| Leftmost(m, p) && v == group(p);
  }

  /** The declarative reading of a search fixes its value: two readings that meet it agree. */
  lemma FoundByUnique(m: nat -> bool, group: nat -> Option<string>, v: Option<string>, w: Option<string>)
    requires FoundBy(m, group, v) && FoundBy(m, group, w)
    ensures v == w
  {
    if v.Some? && w.Some? {
      var p := LeftmostOf(m, group, v);
      var q := LeftmostOf(m, group, w);
      LeftmostUnique(m, p, q);
    }
  }

  /** The declarative reading of a tag search fixes its value. */
  lemma TagFoundUnique(s: string, key: string, v: Option<string>, w: Option<string>)
    requires TagFound(s, key, v) && TagFound(s, key, w)
    ensures v == w
  {
    FoundByUnique(TagAt(s, key), TagGroup(s, key), v, w);
  }

  /** The group at a tag pattern's leftmost match is what the search captures. */
  lemma TagFoundAt(s: string, key: string, p: nat)
    requires MatchesAt(Tag(key), s, p) && forall q: nat :: q < p ==> !MatchesAt(Tag(key), s, q)
    ensures TagFound(s, key, TagValueAt(s, p + |key| + 2))
  {
    assert Leftmost(TagAt(s, key), p);
    assert TagValueAt(s, p + |key| + 2) == TagGroup(s, key)(p);
  }

  /** The capture of `key="(.?|.+?)"` at its first match. */
  function TagCapture(s: string, key: string): (r: Option<string>)
    ensures TagFound(s, key, r)
  {
    match FirstMatch(Tag(key), s, 0)
    case None =>
      NoMatchAnywhere(Tag(key), s);
      None
    case Some(p) =>
      TagFoundAt(s, key, p);
      TagValueAt(s, p + |key| + 2)
  }

  /** The first match of " S(\d+) E(\d+)". */
  function SeasonEpisodeCapture(s: string): (r: Option<SeMatch>)
    ensures r.Some? ==> SeasonEpisodeAt(s, r.value.start) == r
    ensures r.Some? ==> forall q: nat :: q < r.value.start ==> SeasonEpisodeAt(s, q).None?
    ensures r.None? <==> forall q: nat :: SeasonEpisodeAt(s, q).None?
  {
    match FirstMatch(SeasonEpisodeMarker, s, 0)
    case None =>
      assert forall q: nat :: SeasonEpisodeAt(s, q).None? by {
        forall q: nat ensures SeasonEpisodeAt(s, q).None? {
          if q <= |s| { assert !MatchesAt(SeasonEpisodeMarker, s, q); }
        }
      }
      None
    case Some(p) =>
      assert forall q: nat :: q < p ==> SeasonEpisodeAt(s, q).None? by {
        forall q: nat | q < p ensures SeasonEpisodeAt(s, q).None? {
          assert !MatchesAt(SeasonEpisodeMarker, s, q);
        }
      }
      SeasonEpisodeAt(s, p)
  }

  /** A match with none before it is the one captured. */
  lemma SeasonEpisodeCaptureAt(s: string, p: nat)
    requires SeasonEpisodeAt(s, p).Some?
    requires forall q: nat :: q < p ==> SeasonEpisodeAt(s, q).None?
    ensures SeasonEpisodeCapture(s) == SeasonEpisodeAt(s, p)
  {
    var r := SeasonEpisodeCapture(s);
    assert r.Some?;
    var t := r.value.start;
    assert SeasonEpisodeAt(s, t).Some?;
    assert t >= p;
    assert t <= p;
  }

  /** `numberOfMatches` for a literal: non-overlapping occurrences counted left to right from `from`. */
  function CountFrom(s: string, t: string, from: nat): (n: nat)
    requires |t| > 0
    ensures n > 0 <==> exists p: nat :: from <= p && MatchesAt(Literal(t), s, p)
    decreases |s| - from
  {
    if from + |t| > |s| then
      assert forall p: nat :: from <= p ==> !MatchesAt(Literal(t), s, p);
      0
    else if s[from..from + |t|] == t then
      assert MatchesAt(Literal(t), s, from);
      1 + CountFrom(s, t, from + |t|)
    else
      var n := CountFrom(s, t, from + 1);
      assert (exists p: nat :: from <= p && MatchesAt(Literal(t), s, p))
             ==> exists p: nat :: from + 1 <= p && MatchesAt(Literal(t), s, p);
      n
  }

  /**
   * `numberOfMatches` over the whole text. It is one exactly when `t` occurs and no
   * occurrence starts at or after the end of the leftmost one.
   */
  function CountMatches(s: string, t: string): (n: nat)
    requires |t| > 0
    ensures n > 0 <==> exists p: nat :: MatchesAt(Literal(t), s, p)
    ensures n == 1 <==> OccursOnce(s, t, 0)
  {
    CountOnce(s, t, 0);
    CountFrom(s, t, 0)
  }

  /**
   * `p` is the leftmost occurrence of `t` at or after `from`, and no occurrence starts
   * at or after its end.
   */
  ghost predicate OnlyOccurrence(s: string, t: string, from: nat, p: nat) {
    && from <= p && MatchesAt(Literal(t), s, p)
    && (forall q: nat :: from <= q < p ==> !MatchesAt(Literal(t), s, q))
    && (forall q: nat :: p + |t| <= q ==> !MatchesAt(Literal(t), s, q))
  }

  /** A left-to-right count of non-overlapping occurrences from `from` sees exactly one. */
  ghost predicate OccursOnce(s: string, t: string, from: nat) {
    exists p: nat :: OnlyOccurrence(s, t, from, p)
  }

  lemma {:induction false} CountOnce(s: string, t: string, from: nat)
    requires |t| > 0
    ensures CountFrom(s, t, from) == 1 <==> OccursOnce(s, t, from)
    decreases |s| - from
  {
    if from + |t| <= |s| && s[from..from + |t|] == t {
      assert MatchesAt(Literal(t), s, from);
      if OccursOnce(s, t, from) {
        var p: nat :| OnlyOccurrence(s, t, from, p);
        assert p == from;
        assert CountFrom(s, t, from + |t|) == 0;
      }
      if CountFrom(s, t, from) == 1 {
        assert CountFrom(s, t, from + |t|) == 0;
        assert OnlyOccurrence(s, t, from, from);
      }
    } else if from + |t| <= |s| {
      assert !MatchesAt(Literal(t), s, from);
      CountOnce(s, t, from + 1);
      if OccursOnce(s, t, from) {
        var p: nat :| OnlyOccurrence(s, t, from, p);
        assert OnlyOccurrence(s, t, from + 1, p);
      }
      if OccursOnce(s, t, from + 1) {
        var p: nat :| OnlyOccurrence(s, t, from + 1, p);
        assert OnlyOccurrence(s, t, from, p);
      }
    }
  }

  /**
   * The duration a metadata line declares: the first `#EXTINF:(\-*\d+)` capture,
   * converted by Swift's `Int(_:)` (so at most one hyphen, and 64-bit range).
   */
  function DurationValue(s: string): (r: Option<int>)
    ensures r.Some? ==> InInt64(r.value)
    ensures DurationCapture(s).None? ==> r.None?
    ensures DurationCapture(s).Some? ==>
              var c := DurationCapture(s).value;
              var v: int := DigitsValue(c[HyphenRun(c, 0)..]);
              && (HyphenRun(c, 0) == 0 ==> r == if v <= Int64Max then Some(v) else None)
              && (HyphenRun(c, 0) == 1 ==> r == if v <= -Int64Min then Some(-v) else None)
              && (HyphenRun(c, 0) >= 2 ==> r.None?)
  {
    match DurationCapture(s)
    case None => None
    case Some(c) =>
      CaptureConverts(c);
      ParseInt(c)
  }

  lemma {:induction false} DigitRunIs(s: string, i: nat, n: nat)
    requires i + n <= |s|
    requires forall k :: i <= k < i + n ==> IsDigit(s[k])
    requires i + n == |s| || !IsDigit(s[i + n])
    ensures DigitRun(s, i) == n
    decreases n
  {
    if n > 0 {
      DigitRunIs(s, i + 1, n - 1);
    }
  }

  lemma {:induction false} HyphenRunIs(s: string, i: nat, n: nat)
    requires i + n <= |s|
    requires forall k :: i <= k < i + n ==> s[k] == '-'
    requires i + n == |s| || s[i + n] != '-'
    ensures HyphenRun(s, i) == n
    decreases n
  {
    if n > 0 {
      HyphenRunIs(s, i + 1, n - 1);
    }
  }

  /**
   * Writing a 64-bit duration after `#EXTINF:` and reading it back gives it again,
   * whatever follows, as long as it does not continue the digits.
   */
  lemma DurationRoundTrip(d: int, rest: string)
    requires InInt64(d)
    requires rest == [] || !IsDigit(rest[0])
    ensures DurationValue(InfoPrefix + IntText(d) + rest) == Some(d)
  {
    IntTextCaptured(d, rest);
    ParseIntText(d);
  }

  /** The capture of a written duration is its text. */
  lemma IntTextCaptured(d: int, rest: string)
    requires rest == [] || !IsDigit(rest[0])
    ensures DurationCapture(InfoPrefix + IntText(d) + rest) == Some(IntText(d))
  {
    var hy := if d < 0 then "-" else "";
    var digits := Decimal(if d < 0 then -d else d);
    assert IntText(d) == hy + digits;
    DurationCaptureIs(hy, digits, rest, InfoPrefix + IntText(d) + rest);
  }

  /** Where each piece of `InfoPrefix + hy + digits + rest` sits. */
  lemma DurationShape(hy: string, digits: string, rest: string, s: string)
    requires s == InfoPrefix + (hy + digits) + rest
    ensures var q := |InfoPrefix|;
            var e := q + |hy| + |digits|;
            && |s| == e + |rest| && s[..q] == InfoPrefix && s[q..q + |hy|] == hy
            && s[q + |hy|..e] == digits && s[e..] == rest
  {
    var a := InfoPrefix + hy;
    var b := a + digits;
    assert InfoPrefix + (hy + digits) == b;
    assert s[..|b|] == b;
    assert s[..|a|] == a;
  }

  /** A slice that is a digit string, ended by a non-digit or the end, is the whole digit run there. */
  lemma DigitsRunOf(s: string, i: nat, d: string)
    requires i + |d| <= |s| && s[i..i + |d|] == d && AllDigits(d)
    requires i + |d| == |s| || !IsDigit(s[i + |d|])
    ensures DigitRun(s, i) == |d|
  {
    forall k | i <= k < i + |d| ensures IsDigit(s[k]) {
      assert s[k] == d[k - i];
    }
    DigitRunIs(s, i, |d|);
  }

  /** A slice of hyphens, ended by something else or the end, is the whole hyphen run there. */
  lemma HyphensRunOf(s: string, i: nat, hy: string)
    requires i + |hy| <= |s| && s[i..i + |hy|] == hy && forall k :: 0 <= k < |hy| ==> hy[k] == '-'
    requires i + |hy| == |s| || s[i + |hy|] != '-'
    ensures HyphenRun(s, i) == |hy|
  {
    forall k | i <= k < i + |hy| ensures s[k] == '-' {
      assert s[k] == hy[k - i];
    }
    HyphenRunIs(s, i, |hy|);
  }

  /** `#EXTINF:` followed by hyphens `hy` and digits `digits` captures exactly those. */
  lemma DurationCaptureIs(hy: string, digits: string, rest: string, s: string)
    requires forall k :: 0 <= k < |hy| ==> hy[k] == '-'
    requires |digits| > 0 && AllDigits(digits)
    requires rest == [] || !IsDigit(rest[0])
    requires s == InfoPrefix + (hy + digits) + rest
    ensures DurationCapture(s) == Some(hy + digits)
  {
    DurationShape(hy, digits, rest, s);
    DurationCaptureOfSlices(hy, digits, rest, s);
  }

  /** The same, with the line given by where its pieces sit. */
  lemma DurationCaptureOfSlices(hy: string, digits: string, rest: string, s: string)
    requires forall k :: 0 <= k < |hy| ==> hy[k] == '-'
    requires |digits| > 0 && AllDigits(digits)
    requires rest == [] || !IsDigit(rest[0])
    requires var q := |InfoPrefix|;
             var e := q + |hy| + |digits|;
             && |s| == e + |rest| && s[..q] == InfoPrefix && s[q..q + |hy|] == hy
             && s[q + |hy|..e] == digits && s[e..] == rest
    ensures DurationCapture(s) == Some(hy + digits)
  {
    var q := |InfoPrefix|;
    var h := |hy|;
    var e := q + h + |digits|;
    assert s[q + h] == s[q + h..e][0];
    HyphensRunOf(s, q, hy);
    assert e < |s| ==> s[e] == s[e..][0];
    DigitsRunOf(s, q + h, digits);
    JoinedSlices(s, q, hy, digits);
    DurationMatchesFirst(s, h, |digits|);
  }

  /** Two adjacent slices read together are the two texts joined. */
  lemma JoinedSlices(s: string, q: nat, a: string, b: string)
    requires q + |a| + |b| <= |s| && s[q..q + |a|] == a && s[q + |a|..q + |a| + |b|] == b
    ensures s[q..q + |a| + |b|] == a + b
  {
    SliceJoin(s, q, q + |a|, q + |a| + |b|);
  }

  lemma SliceJoin(s: string, a: nat, b: nat, c: nat)
    requires a <= b <= c <= |s|
    ensures s[a..c] == s[a..b] + s[b..c]
  {
  }

  /** A line that starts with a matching `#EXTINF:` is captured there: its `h` hyphens and `d` digits. */
  lemma DurationMatchesFirst(s: string, h: nat, d: nat)
    requires |InfoPrefix| <= |s| && s[..|InfoPrefix|] == InfoPrefix
    requires h == HyphenRun(s, |InfoPrefix|) && d == DigitRun(s, |InfoPrefix| + h) && d > 0
    ensures |InfoPrefix| + h + d <= |s|
    ensures DurationCapture(s) == Some(s[|InfoPrefix|..|InfoPrefix| + h + d])
  {
    assert s[0..|InfoPrefix|] == InfoPrefix;
    assert MatchesAt(Duration, s, 0);
    assert FirstMatch(Duration, s, 0) == Some(0);
  }

  /** Two hyphens before the digits make the duration unreadable (Swift's `Int("--1")` is nil). */
  lemma DoubleHyphenRejected(n: nat, rest: string)
    requires rest == [] || !IsDigit(rest[0])
    ensures DurationValue(InfoPrefix + "--" + Decimal(n) + rest).None?
  {
    DoubleHyphenCaptured(n, rest);
  }

  lemma DoubleHyphenCaptured(n: nat, rest: string)
    requires rest == [] || !IsDigit(rest[0])
    ensures DurationCapture(InfoPrefix + "--" + Decimal(n) + rest) == Some("--" + Decimal(n))
  {
    var s := InfoPrefix + "--" + Decimal(n) + rest;
    assert s == InfoPrefix + ("--" + Decimal(n)) + rest;
    DurationCaptureIs("--", Decimal(n), rest, s);
  }

  /** A duration beyond 64 bits is unreadable. */
  lemma OverflowRejected(n: nat, rest: string)
    requires n > Int64Max
    requires rest == [] || !IsDigit(rest[0])
    ensures DurationValue(InfoPrefix + Decimal(n) + rest).None?
  {
    DecimalCaptured(n, rest);
    DecimalOverflows(n);
  }

  /** The capture of a written unsigned duration is its digits. */
  lemma DecimalCaptured(n: nat, rest: string)
    requires rest == [] || !IsDigit(rest[0])
    ensures DurationCapture(InfoPrefix + Decimal(n) + rest) == Some(Decimal(n))
  {
    assert [] + Decimal(n) == Decimal(n);
    DurationCaptureIs([], Decimal(n), rest, InfoPrefix + Decimal(n) + rest);
  }

  /** Swift's `Int(_:)` rejects digits whose value exceeds 64 bits. */
  lemma DecimalOverflows(n: nat)
    requires n > Int64Max
    ensures ParseInt(Decimal(n)).None?
  {
    assert Decimal(n)[0] != '+' && Decimal(n)[0] != '-';
  }
}
