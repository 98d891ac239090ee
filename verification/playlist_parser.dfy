/**
 * The canonical engine (`PlaylistParser` with options): header check, the scan in
 * its batch (`Parse`) and incremental (`Walk`) forms, and the per-entry extraction
 * of duration, name, attributes, season/episode and kind.
 */
module PlaylistParser {
  import opened Wrappers
  import opened Text
  import opened Patterns
  import opened Model
  import LineScan
  import opened TagLines

  /** `Options`: the two flags of the option set. */
  datatype Options = Options(removeSeriesInfoFromText: bool, extractIdFromURL: bool)

  /** What `init()` uses: the empty option set. */
  const DefaultOptions: Options := Options(false, false)

  /** `Options.all`. */
  const AllOptions: Options := Options(true, true)

  datatype ParsingError = InvalidSource | MissingDuration(line: int, raw: string)

  /** `Playlist.Media.Metadata`. */
  datatype Metadata = Metadata(duration: int, attributes: Attributes, name: string)

  /** The source text with its `#EXTM3U` marker removed; a missing source or marker is `invalidSource`. */
  function ExtractRawString(input: Option<string>): (r: Result<string, ParsingError>)
    ensures r.Failure? <==> input.None? || !StartsWith(input.value, Header)
    ensures r.Failure? ==> r.error == InvalidSource
    ensures r.Success? ==> Header + r.value == input.value
  {
    if input.None? || !StartsWith(input.value, Header) then Failure(InvalidSource)
    else
      assert input.value == Header + input.value[|Header|..];
      Success(input.value[|Header|..])
  }

  function IsInfoLine(input: string): (r: bool)
    ensures r <==> |input| >= |InfoPrefix| && input == InfoPrefix + input[|InfoPrefix|..]
  {
    LineScan.IsInfoLine(input)
  }

  /** The declared duration, or `missingDuration` carrying the line number and the line unchanged. */
  function ExtractDuration(line: int, rawString: string): (r: Result<int, ParsingError>)
    ensures r.Failure? <==> DurationValue(rawString).None?
    ensures r.Failure? ==> r.error == MissingDuration(line, rawString)
    ensures r.Success? ==> InInt64(r.value) && Some(r.value) == DurationValue(rawString)
  {
    match DurationValue(rawString)
    case None => Failure(MissingDuration(line, rawString))
    case Some(d) => Success(d)
  }

  /** The text after the last comma that has something after it, or "". */
  function ExtractName(input: string): (r: string)
    ensures CommaName(input, r)
  {
    NameOrEmpty(input)
  }

  /** The first non-empty piece of the URL's last path component split at dots. */
  function ExtractId(plat: Platform, input: Url): (r: string)
    ensures '.' !in r
    ensures var c := plat.lastPathComponent(input.line);
            r == [] <==> forall k :: 0 <= k < |c| ==> c[k] == '.'
    ensures r != [] ==> exists i :: PieceAt(plat.lastPathComponent(input.line), '.', i, r)
  {
    FirstPiece(plat.lastPathComponent(input.line), '.')
  }

  /**
   * The first marker, in the order series, movies, live, that `numberOfMatches` counts
   * once: it occurs, and nothing after its leftmost occurrence repeats it.
   */
  function ParseMediaKind(plat: Platform, input: Url): (r: Kind)
    ensures var s := plat.absoluteString(input.line);
            && (r == Series <==> OccursOnce(s, SeriesMarker, 0))
            && (r == Movie <==> !OccursOnce(s, SeriesMarker, 0) && OccursOnce(s, MoviesMarker, 0))
            && (r == Live <==> !OccursOnce(s, SeriesMarker, 0) && !OccursOnce(s, MoviesMarker, 0)
                               && OccursOnce(s, LiveMarker, 0))
  {
    var s := plat.absoluteString(input.line);
    if CountMatches(s, SeriesMarker) == 1 then Series
    else if CountMatches(s, MoviesMarker) == 1 then Movie
    else if CountMatches(s, LiveMarker) == 1 then Live
    else Unknown
  }

  /**
   * The numbers of the first " S<digits> E<digits>", and the text with that span
   * (leading space included) deleted when the option is set; the input unchanged and
   * no numbers when there is no such span or a number does not fit in 64 bits.
   */
  function ParseSeasonEpisode(options: Options, input: string): (r: Show)
    ensures r.se.None? ==> r.name == input
    ensures SeasonEpisodeCapture(input).None? ==> r.se.None?
    ensures r.se.Some? ==>
              var m := SeasonEpisodeCapture(input).value;
              && r.se.value == SeasonEpisode(DigitsValue(m.season), DigitsValue(m.episode))
              && r.name == if options.removeSeriesInfoFromText then input[..m.start] + input[m.end..] else input
    ensures r.se.Some? <==> (&& SeasonEpisodeCapture(input).Some?
                             && DigitsValue(SeasonEpisodeCapture(input).value.season) <= Int64Max
                             && DigitsValue(SeasonEpisodeCapture(input).value.episode) <= Int64Max)
  {
    match SeasonEpisodeCapture(input)
    case None => Show(input, None)
    case Some(m) =>
      match (ParseInt(m.season), ParseInt(m.episode))
      case (Some(s), Some(e)) =>
        var name := if options.removeSeriesInfoFromText then input[..m.start] + input[m.end..] else input;
        Show(name, Some(SeasonEpisode(s, e)))
      case _ => Show(input, None)
  }

  /**
   * The attributes of one metadata line: the id is always set (the tag or ""), and is
   * taken from the URL when that is empty and the option asks for it; the name tag
   * goes through the season/episode heuristic, which alone gives the numbers; every
   * other field is its own tag's value, unset when the tag is absent.
   */
  function ParseAttributes(options: Options, plat: Platform, rawString: string, url: Url): (r: Attributes)
    ensures r.id.Some?
    ensures TagCapture(rawString, IdKey).Some? && TagCapture(rawString, IdKey).value != []
            ==> r.id == TagCapture(rawString, IdKey)
    ensures TagCapture(rawString, IdKey).None? || TagCapture(rawString, IdKey) == Some([])
            ==> r.id == Some(if options.extractIdFromURL then ExtractId(plat, url) else [])
    ensures TagCapture(rawString, NameKey).None? ==> r.name.None? && r.seasonNumber.None? && r.episodeNumber.None?
    ensures TagCapture(rawString, NameKey).Some? ==>
              var show := ParseSeasonEpisode(options, TagCapture(rawString, NameKey).value);
              && r.name == Some(show.name)
              && (r.seasonNumber.Some? <==> show.se.Some?)
              && (r.episodeNumber.Some? <==> show.se.Some?)
              && (show.se.Some? ==> r.seasonNumber == Some(show.se.value.s) && r.episodeNumber == Some(show.se.value.e))
    ensures TagFound(rawString, CountryKey, r.country)
    ensures TagFound(rawString, LanguageKey, r.language)
    ensures TagFound(rawString, LogoKey, r.logo)
    ensures TagFound(rawString, ChannelNumberKey, r.channelNumber)
    ensures TagFound(rawString, ShiftKey, r.shift)
    ensures TagFound(rawString, GroupTitleKey, r.groupTitle)
  {
    FromCaptures(options, plat, url, TagCapture(rawString, IdKey), TagCapture(rawString, NameKey),
                 TagCapture(rawString, CountryKey), TagCapture(rawString, LanguageKey), TagCapture(rawString, LogoKey),
                 TagCapture(rawString, ChannelNumberKey), TagCapture(rawString, ShiftKey), TagCapture(rawString, GroupTitleKey))
  }

  /** The attribute record built from the eight tag captures, in the order `parseAttributes` sets them. */
  function FromCaptures(options: Options, plat: Platform, url: Url, id: Option<string>, name: Option<string>,
                        country: Option<string>, language: Option<string>, logo: Option<string>,
                        channelNumber: Option<string>, shift: Option<string>, groupTitle: Option<string>): Attributes
  {
    var id := id.GetOr("");
    var id' := if id == [] && options.extractIdFromURL then ExtractId(plat, url) else id;
    var a := NoAttributes.(id := Some(id'));
    var a := match name
      case None => a
      case Some(name) =>
        var show := ParseSeasonEpisode(options, name);
        a.(name := Some(show.name),
           seasonNumber := if show.se.Some? then Some(show.se.value.s) else None,
           episodeNumber := if show.se.Some? then Some(show.se.value.e) else None);
    a.(country := country, language := language, logo := logo,
       channelNumber := channelNumber, shift := shift, groupTitle := groupTitle)
  }

  /**
   * Duration first: its failure is the only failure, and yields nothing else. The
   * entry name is the comma text with season/episode handling applied, keeping only
   * the text.
   */
  function ParseMetadata(options: Options, plat: Platform, line: int, rawString: string, url: Url)
    : (r: Result<Metadata, ParsingError>)
    ensures r.Failure? <==> ExtractDuration(line, rawString).Failure?
    ensures r.Failure? ==> r.error == MissingDuration(line, rawString)
    ensures r.Success? ==> Success(r.value.duration) == ExtractDuration(line, rawString)
    ensures r.Success? ==> r.value.attributes == ParseAttributes(options, plat, rawString, url)
    ensures r.Success? ==> r.value.name == ParseSeasonEpisode(options, ExtractName(rawString)).name
  {
    match ExtractDuration(line, rawString)
    case Failure(e) => Failure(e)
    case Success(duration) =>
      var attributes := ParseAttributes(options, plat, rawString, url);
      var name := ParseSeasonEpisode(options, ExtractName(rawString)).name;
      Success(Metadata(duration, attributes, name))
  }

  /** The body of the scan for a completed pair: metadata, kind, and the entry. */
  function MakeMedia(options: Options, plat: Platform, line: nat, metadataLine: string, urlLine: string)
    : (r: Result<Media, ParsingError>)
    ensures r.Failure? <==> DurationValue(metadataLine).None?
    ensures r.Failure? ==> r.error == MissingDuration(line, metadataLine)
    ensures r.Success? ==> r.value.url == Url(urlLine) && Some(r.value.duration) == DurationValue(metadataLine)
    ensures r.Success? ==> r.value.kind == ParseMediaKind(plat, Url(urlLine))
    ensures r.Success? ==> r.value.attributes == ParseAttributes(options, plat, metadataLine, Url(urlLine))
    ensures r.Success? ==> r.value.name == ParseSeasonEpisode(options, ExtractName(metadataLine)).name
  {
    match ParseMetadata(options, plat, line, metadataLine, Url(urlLine))
    case Failure(e) => Failure(e)
    case Success(m) => Success(Media(m.duration, m.attributes, ParseMediaKind(plat, Url(urlLine)), m.name, Url(urlLine)))
  }

  function Builder(options: Options, plat: Platform): (nat, string, string) -> Result<Media, ParsingError> {
    (line: nat, metadataLine: string, urlLine: string) => MakeMedia(options, plat, line, metadataLine, urlLine)
  }

  /** The lines the scan walks: those of the source after the marker. */
  function Lines(plat: Platform, raw: string): seq<string> {
    plat.lines(raw)
  }

  /** Batch mode: all entries, or the first error and no playlist. */
  function Parse(options: Options, plat: Platform, input: Option<string>): (r: Result<Playlist, ParsingError>)
    ensures ExtractRawString(input).Failure? ==> r == Failure(InvalidSource)
    ensures ExtractRawString(input).Success? && r.Failure? ==> r.error.MissingDuration?
  {
    match ExtractRawString(input)
    case Failure(e) => Failure(e)
    case Success(raw) =>
      var o := LineScan.Scan(Lines(plat, raw), plat.isUrl, Builder(options, plat));
      LineScan.ScanAssembles(Lines(plat, raw), plat.isUrl, Builder(options, plat));
      if o.failure.None? then Success(Playlist(o.emitted)) else Failure(o.failure.value)
  }

  /**
   * Incremental mode: `delivered` are the handler's calls in order. On success they
   * are exactly the batch result; on failure they are the entries completed before
   * the failing pair and the error is the batch error.
   */
  method Walk(options: Options, plat: Platform, input: Option<string>)
    returns (delivered: seq<Media>, failure: Option<ParsingError>)
    ensures failure.None? <==> Parse(options, plat, input).Success?
    ensures failure.None? ==> Parse(options, plat, input) == Success(Playlist(delivered))
    ensures failure.Some? ==> Parse(options, plat, input) == Failure(failure.value)
    ensures ExtractRawString(input).Failure? ==> delivered == []
    ensures ExtractRawString(input).Success? ==>
              LineScan.Outcome(delivered, failure)
              == LineScan.Assemble(Builder(options, plat), LineScan.Pairing(Lines(plat, ExtractRawString(input).value), plat.isUrl))
  {
    match ExtractRawString(input)
    case Failure(e) =>
      delivered, failure := [], Some(e);
    case Success(raw) =>
      delivered, failure := LineScan.Walk(Lines(plat, raw), plat.isUrl, Builder(options, plat));
      LineScan.ScanAssembles(Lines(plat, raw), plat.isUrl, Builder(options, plat));
  }

  // ---------------------------------------------------------------------------
  // Properties.

  /** The pairs the scan forms over the lines of a source that has the marker. */
  function SourcePairs(plat: Platform, input: Option<string>): seq<LineScan.Pair>
    requires ExtractRawString(input).Success?
  {
    LineScan.Pairing(Lines(plat, ExtractRawString(input).value), plat.isUrl)
  }

  /** The batch result is the pairs built in order, stopped at the first failure. */
  lemma ParseIsAssembled(options: Options, plat: Platform, input: Option<string>)
    requires ExtractRawString(input).Success?
    ensures var a := LineScan.Assemble(Builder(options, plat), SourcePairs(plat, input));
            Parse(options, plat, input) == if a.failure.None? then Success(Playlist(a.emitted)) else Failure(a.failure.value)
  {
    var raw := ExtractRawString(input).value;
    LineScan.ScanAssembles(Lines(plat, raw), plat.isUrl, Builder(options, plat));
  }

  /**
   * The batch result in terms of the pairing rule: it succeeds exactly when every
   * pair's metadata line declares a duration, and then holds one entry per pair, in
   * pair order.
   */
  lemma ParseFollowsPairing(options: Options, plat: Platform, input: Option<string>)
    requires ExtractRawString(input).Success?
    ensures var pairs := SourcePairs(plat, input);
            Parse(options, plat, input).Success? <==> forall k :: 0 <= k < |pairs| ==> DurationValue(pairs[k].meta).Some?
    ensures var pairs := SourcePairs(plat, input);
            var r := Parse(options, plat, input);
            r.Success? ==> |r.value.medias| == |pairs|
                           && forall k :: 0 <= k < |pairs| ==>
                                MakeMedia(options, plat, pairs[k].line, pairs[k].meta, pairs[k].url) == Success(r.value.medias[k])
  {
    var pairs := SourcePairs(plat, input);
    var build := Builder(options, plat);
    ParseIsAssembled(options, plat, input);
    var a := LineScan.Assemble(build, pairs);
    if a.failure.Some? {
      assert LineScan.BuildPair(build, pairs[|a.emitted|]).Failure?;
    } else {
      forall k | 0 <= k < |pairs|
        ensures MakeMedia(options, plat, pairs[k].line, pairs[k].meta, pairs[k].url) == Success(a.emitted[k])
      {
        assert LineScan.BuildPair(build, pairs[k]) == Success(a.emitted[k]);
      }
    }
  }

  /**
   * On failure the error names the first pair whose metadata line has no duration,
   * by the line that completed the pair and the metadata line unchanged.
   */
  lemma ParseFailureIsFirstBadPair(options: Options, plat: Platform, input: Option<string>)
    requires ExtractRawString(input).Success?
    requires Parse(options, plat, input).Failure?
    ensures var pairs := SourcePairs(plat, input);
            exists k :: && 0 <= k < |pairs|
                        && (forall j :: 0 <= j < k ==> DurationValue(pairs[j].meta).Some?)
                        && Parse(options, plat, input).error == MissingDuration(pairs[k].line, pairs[k].meta)
  {
    var pairs := SourcePairs(plat, input);
    var build := Builder(options, plat);
    ParseIsAssembled(options, plat, input);
    var a := LineScan.Assemble(build, pairs);
    var k := |a.emitted|;
    forall j | 0 <= j < k ensures DurationValue(pairs[j].meta).Some? {
      assert LineScan.BuildPair(build, pairs[j]).Success?;
    }
    assert LineScan.BuildPair(build, pairs[k]) == Failure(a.failure.value);
  }

  /** The number of entries is at most the number of metadata lines, and of URL lines. */
  lemma ParseCountBound(options: Options, plat: Platform, input: Option<string>)
    requires Parse(options, plat, input).Success?
    ensures var lines := Lines(plat, ExtractRawString(input).value);
            var n := |Parse(options, plat, input).value.medias|;
            n <= LineScan.CountInfo(lines) && n <= LineScan.CountUrl(plat.isUrl, lines)
  {
    var lines := Lines(plat, ExtractRawString(input).value);
    ParseFollowsPairing(options, plat, input);
    LineScan.PairingCount(lines, plat.isUrl, 0, SourcePairs(plat, input));
    assert lines[0..] == lines;
  }

  /** Fail-fast: lines after the one that failed cannot change the outcome. */
  lemma ParseIgnoresLinesAfterFailure(options: Options, plat: Platform, input: Option<string>,
                                      longer: Option<string>, extra: seq<string>)
    requires ExtractRawString(input).Success? && ExtractRawString(longer).Success?
    requires Lines(plat, ExtractRawString(longer).value) == Lines(plat, ExtractRawString(input).value) + extra
    requires Parse(options, plat, input).Failure?
    ensures Parse(options, plat, longer) == Parse(options, plat, input)
  {
    var lines := Lines(plat, ExtractRawString(input).value);
    LineScan.RunStops(lines, extra, plat.isUrl, Builder(options, plat), 0, LineScan.Idle, []);
  }

  /** A name written after a comma is read back, whatever precedes the comma. */
  lemma NameRoundTrip(prefix: string, name: string)
    requires name != []
    requires forall k :: 0 <= k < |name| - 1 ==> name[k] != ','
    ensures ExtractName(prefix + "," + name) == name
  {
    var s := prefix + "," + name;
    assert s[|prefix|] == ',';
    assert s[|s| - |name|..] == name;
  }

  /** Season and episode numbers in the comma text never reach the entry; only its text does. */
  lemma NameKeepsOnlyText(options: Options, plat: Platform, line: nat, metadataLine: string, urlLine: string)
    requires MakeMedia(options, plat, line, metadataLine, urlLine).Success?
    requires TagCapture(metadataLine, NameKey).None?
    ensures var m := MakeMedia(options, plat, line, metadataLine, urlLine).value;
            && m.name == ParseSeasonEpisode(options, ExtractName(metadataLine)).name
            && m.attributes.seasonNumber.None? && m.attributes.episodeNumber.None?
  {
  }

  /**
   * Attributes of a written line: the six plain tags and a non-empty id read back
   * their written values, an unwritten or empty id falls back as the option says,
   * and the name is the season/episode step's text of the written name.
   */
  lemma ParseAttributesWrittenLine(options: Options, plat: Platform, head: string, ts: seq<Tagged>, tail: string, url: Url)
    requires WrittenLine(head, ts, tail)
    ensures var r := ParseAttributes(options, plat, head + TagsText(ts) + tail, url);
            && r.country == Lookup(ts, CountryKey) && r.language == Lookup(ts, LanguageKey)
            && r.logo == Lookup(ts, LogoKey) && r.channelNumber == Lookup(ts, ChannelNumberKey)
            && r.shift == Lookup(ts, ShiftKey) && r.groupTitle == Lookup(ts, GroupTitleKey)
            && (Lookup(ts, IdKey).Some? && Lookup(ts, IdKey).value != [] ==> r.id == Lookup(ts, IdKey))
            && (Lookup(ts, IdKey).None? || Lookup(ts, IdKey) == Some([]) ==>
                  r.id == Some(if options.extractIdFromURL then ExtractId(plat, url) else []))
            && (Lookup(ts, NameKey).None? ==> r.name.None?)
            && (Lookup(ts, NameKey).Some? ==> r.name == Some(ParseSeasonEpisode(options, Lookup(ts, NameKey).value).name))
  {
    ReadAttribute(head, ts, tail, IdKey);
    ReadAttribute(head, ts, tail, NameKey);
    ReadAttribute(head, ts, tail, CountryKey);
    ReadAttribute(head, ts, tail, LanguageKey);
    ReadAttribute(head, ts, tail, LogoKey);
    ReadAttribute(head, ts, tail, ChannelNumberKey);
    ReadAttribute(head, ts, tail, ShiftKey);
    ReadAttribute(head, ts, tail, GroupTitleKey);
  }

  /** Tag order is irrelevant: the same tags with distinct keys, in any order, give the same attributes. */
  lemma ParseAttributesIgnoresTagOrder(options: Options, plat: Platform, head: string, ts: seq<Tagged>, us: seq<Tagged>,
                                       tail: string, url: Url)
    requires WrittenLine(head, ts, tail) && WrittenLine(head, us, tail)
    requires DistinctKeys(ts) && DistinctKeys(us)
    requires forall t :: t in ts <==> t in us
    ensures ParseAttributes(options, plat, head + TagsText(ts) + tail, url)
            == ParseAttributes(options, plat, head + TagsText(us) + tail, url)
  {
    var s1 := head + TagsText(ts) + tail;
    var s2 := head + TagsText(us) + tail;
    forall k | k in AttributeKeys ensures TagCapture(s1, k) == TagCapture(s2, k) {
      ReadAttribute(head, ts, tail, k);
      ReadAttribute(head, us, tail, k);
      if Lookup(ts, k).Some? {
        LookupDistinct(us, Tagged(k, Lookup(ts, k).value));
      } else if Lookup(us, k).Some? {
        LookupDistinct(ts, Tagged(k, Lookup(us, k).value));
      }
    }
    assert TagCapture(s1, IdKey) == TagCapture(s2, IdKey);
    assert TagCapture(s1, NameKey) == TagCapture(s2, NameKey);
    assert TagCapture(s1, CountryKey) == TagCapture(s2, CountryKey);
    assert TagCapture(s1, LanguageKey) == TagCapture(s2, LanguageKey);
    assert TagCapture(s1, LogoKey) == TagCapture(s2, LogoKey);
    assert TagCapture(s1, ChannelNumberKey) == TagCapture(s2, ChannelNumberKey);
    assert TagCapture(s1, ShiftKey) == TagCapture(s2, ShiftKey);
    assert TagCapture(s1, GroupTitleKey) == TagCapture(s2, GroupTitleKey);
  }

  /** No `" S"` occurs in `title`. */
  predicate NoSeriesMark(title: string) {
    forall k :: 0 <= k < |title| - 1 ==> !(title[k] == ' ' && title[k + 1] == 'S')
  }

  /** Where each piece of `title + " S" + d1 + " E" + d2` sits. */
  lemma SeriesSuffixShape(title: string, d1: string, d2: string, s: string)
    requires s == title + " S" + d1 + " E" + d2
    ensures var p := |title|;
            var m := p + 2 + |d1|;
            && |s| == m + 2 + |d2| && s[p] == ' ' && s[p + 1] == 'S'
            && s[p + 2..m] == d1 && s[m] == ' ' && s[m + 1] == 'E' && s[m + 2..] == d2
  {
    var b := title + " S" + d1;
    assert s == b + " E" + d2;
    assert s[|title| + 2..|b|] == d1 by { assert s[..|b|] == b; }
  }

  /** The appended `" S<d1> E<d2>"` matches where it starts, capturing both digit runs. */
  lemma SeriesSuffixMatches(title: string, d1: string, d2: string, s: string)
    requires |d1| > 0 && AllDigits(d1) && |d2| > 0 && AllDigits(d2)
    requires s == title + " S" + d1 + " E" + d2
    ensures SeasonEpisodeAt(s, |title|) == Some(SeMatch(|title|, |s|, d1, d2))
  {
    SeriesSuffixShape(title, d1, d2, s);
    SeriesMatchOfSlices(|title|, d1, d2, s);
  }

  /** The same, with the line given by where its pieces sit. */
  lemma SeriesMatchOfSlices(p: nat, d1: string, d2: string, s: string)
    requires |d1| > 0 && AllDigits(d1) && |d2| > 0 && AllDigits(d2)
    requires var m := p + 2 + |d1|;
             && |s| == m + 2 + |d2| && s[p] == ' ' && s[p + 1] == 'S'
             && s[p + 2..m] == d1 && s[m] == ' ' && s[m + 1] == 'E' && s[m + 2..] == d2
    ensures SeasonEpisodeAt(s, p) == Some(SeMatch(p, |s|, d1, d2))
  {
    DigitsRunOf(s, p + 2, d1);
    DigitsRunOf(s, p + 2 + |d1| + 2, d2);
  }

  /** Nothing matches inside a title without `" S"` when a space follows it. */
  lemma SeriesSuffixFirst(title: string, s: string)
    requires NoSeriesMark(title)
    requires |title| < |s| && s[..|title|] == title && s[|title|] == ' '
    ensures forall q: nat :: q < |title| ==> SeasonEpisodeAt(s, q).None?
  {
    forall q: nat | q < |title| ensures SeasonEpisodeAt(s, q).None? {
      assert s[q] == title[q];
      if q + 1 < |title| {
        assert s[q + 1] == title[q + 1];
      }
    }
  }

  /** Where `" S<d1> E<d2>"` appended to `title` is found. */
  lemma SeriesSuffixFound(title: string, d1: string, d2: string, s: string)
    requires NoSeriesMark(title)
    requires |d1| > 0 && AllDigits(d1) && |d2| > 0 && AllDigits(d2)
    requires s == title + " S" + d1 + " E" + d2
    ensures SeasonEpisodeCapture(s) == Some(SeMatch(|title|, |s|, d1, d2))
  {
    SeriesSuffixMatches(title, d1, d2, s);
    SeriesSuffixShape(title, d1, d2, s);
    assert s[..|title|] == title;
    SeriesSuffixFirst(title, s);
    SeasonEpisodeCaptureAt(s, |title|);
  }

  /**
   * Season and episode numbers written after a title are read back, and with the
   * removal option the title alone remains.
   */
  lemma SeasonEpisodeRoundTrip(options: Options, title: string, season: nat, episode: nat)
    requires NoSeriesMark(title)
    requires season <= Int64Max && episode <= Int64Max
    ensures var s := title + " S" + Decimal(season) + " E" + Decimal(episode);
            var r := ParseSeasonEpisode(options, s);
            && r.se == Some(SeasonEpisode(season, episode))
            && r.name == if options.removeSeriesInfoFromText then title else s
  {
    var d1 := Decimal(season);
    var d2 := Decimal(episode);
    var s := title + " S" + d1 + " E" + d2;
    SeriesSuffixFound(title, d1, d2, s);
    assert IntText(season) == d1 && IntText(episode) == d2;
    ParseIntText(season);
    ParseIntText(episode);
    SeasonEpisodeFromCapture(options, s, SeMatch(|title|, |s|, d1, d2), season, episode);
    assert s[..|title|] + s[|s|..] == title;
  }

  /** A captured span whose two numbers convert is read as those numbers, with the span removed on request. */
  lemma SeasonEpisodeFromCapture(options: Options, s: string, m: SeMatch, season: int, episode: int)
    requires SeasonEpisodeCapture(s) == Some(m)
    requires ParseInt(m.season) == Some(season) && ParseInt(m.episode) == Some(episode)
    ensures ParseSeasonEpisode(options, s).se == Some(SeasonEpisode(season, episode))
    ensures ParseSeasonEpisode(options, s).name == if options.removeSeriesInfoFromText then s[..m.start] + s[m.end..] else s
  {
  }

  /** The id taken from a URL ending in `123456.mp4` is `123456`. */
  lemma ExtractIdExample(plat: Platform, url: Url)
    requires plat.lastPathComponent(url.line) == "123456.mp4"
    ensures ExtractId(plat, url) == "123456"
  {
    assert "123456.mp4" == "123456" + ".mp4";
    FirstPieceIs("123456", ".mp4", '.');
  }

  // ---------------------------------------------------------------------------
  // Media kinds of path-shaped URLs.

  /** The only slashes of `host/dir/id`, when its parts have none, are the two written. */
  lemma PathSlashes(host: string, dir: string, id: string)
    requires '/' !in host && '/' !in dir && '/' !in id
    ensures var s := host + "/" + dir + "/" + id;
            var a := |host|;
            var b := |host| + 1 + |dir|;
            && |s| == b + 1 + |id| && s[a] == '/' && s[b] == '/' && s[a..b + 1] == "/" + dir + "/"
            && forall k :: 0 <= k < |s| && k != a && k != b ==> s[k] != '/'
  {
    var s := host + "/" + dir + "/" + id;
    var a := |host|;
    var b := |host| + 1 + |dir|;
    forall k | 0 <= k < |s| && k != a && k != b ensures s[k] != '/' {
      if k < a {
        assert s[k] == host[k];
      } else if k < b {
        assert s[k] == dir[k - a - 1];
      } else {
        assert s[k] == id[k - b - 1];
      }
    }
    assert s[a..b + 1] == "/" + dir + "/";
  }

  /**
   * In `host/dir/id` with no other slash, a marker written between two slashes is
   * counted once exactly when it is `/dir/`.
   */
  lemma PathMarker(host: string, dir: string, id: string, t: string)
    requires '/' !in host && '/' !in dir && '/' !in id
    requires |t| >= 2 && t[0] == '/' && t[|t| - 1] == '/'
    ensures OccursOnce(host + "/" + dir + "/" + id, t, 0) <==> t == "/" + dir + "/"
  {
    var s := host + "/" + dir + "/" + id;
    var a := |host|;
    var b := |host| + 1 + |dir|;
    PathSlashes(host, dir, id);
    forall q: nat | MatchesAt(Literal(t), s, q) ensures q == a && t == "/" + dir + "/" {
      assert s[q] == t[0] && s[q + |t| - 1] == t[|t| - 1];
    }
    if t == "/" + dir + "/" {
      assert OnlyOccurrence(s, t, 0, a);
    }
  }

  /** The marker `/w/` is counted once in `host/dir/id` exactly when `dir` is `w`. */
  lemma NamedDirectory(host: string, dir: string, id: string, w: string)
    requires '/' !in host && '/' !in dir && '/' !in id
    ensures OccursOnce(host + "/" + dir + "/" + id, "/" + w + "/", 0) <==> dir == w
  {
    PathMarker(host, dir, id, "/" + w + "/");
    if "/" + dir + "/" == "/" + w + "/" {
      assert dir == ("/" + dir + "/")[1..|dir| + 1];
      assert w == ("/" + w + "/")[1..|w| + 1];
    }
  }

  /** The only slash of `host/id`, when its parts have none, is the one written. */
  lemma OneSlash(host: string, id: string)
    requires '/' !in host && '/' !in id
    ensures forall k :: 0 <= k < |host + "/" + id| && k != |host| ==> (host + "/" + id)[k] != '/'
  {
    var s := host + "/" + id;
    forall k | 0 <= k < |s| && k != |host| ensures s[k] != '/' {
      if k < |host| { assert s[k] == host[k]; } else { assert s[k] == id[k - |host| - 1]; }
    }
  }

  /** A URL with a single slash holds none of the markers, which each need two. */
  lemma OneSlashNoMarker(host: string, id: string, t: string)
    requires '/' !in host && '/' !in id
    requires |t| >= 2 && t[0] == '/' && t[|t| - 1] == '/'
    ensures forall q: nat :: !MatchesAt(Literal(t), host + "/" + id, q)
  {
    var s := host + "/" + id;
    OneSlash(host, id);
    forall q: nat ensures !MatchesAt(Literal(t), s, q) {
      if q + |t| <= |s| {
        if s[q] == '/' {
          assert s[q..q + |t|][|t| - 1] == s[q + |t| - 1] != '/';
        } else {
          assert s[q..q + |t|][0] != '/';
        }
      }
    }
  }

  /** The kind of `host/dir/id` is named by its one directory: `series`, `movies` or `live`. */
  lemma KindOfPath(plat: Platform, url: Url, host: string, dir: string, id: string)
    requires '/' !in host && '/' !in dir && '/' !in id
    requires plat.absoluteString(url.line) == host + "/" + dir + "/" + id
    ensures ParseMediaKind(plat, url)
            == if dir == "series" then Series else if dir == "movies" then Movie
               else if dir == "live" then Live else Unknown
  {
    NamedDirectory(host, dir, id, "series");
    NamedDirectory(host, dir, id, "movies");
    NamedDirectory(host, dir, id, "live");
    assert "/" + "series" + "/" == SeriesMarker;
    assert "/" + "movies" + "/" == MoviesMarker;
    assert "/" + "live" + "/" == LiveMarker;
  }

  /** A URL without a directory has no kind. */
  lemma KindWithoutDirectory(plat: Platform, url: Url, host: string, id: string)
    requires '/' !in host && '/' !in id
    requires plat.absoluteString(url.line) == host + "/" + id
    ensures ParseMediaKind(plat, url) == Unknown
  {
    OneSlashNoMarker(host, id, SeriesMarker);
    OneSlashNoMarker(host, id, MoviesMarker);
    OneSlashNoMarker(host, id, LiveMarker);
  }

  /** `/series/` written twice, the second after the first ends, is counted twice: not a series. */
  lemma SeriesTwiceIsNotSeries(plat: Platform, url: Url, a: string, b: string, c: string)
    requires plat.absoluteString(url.line) == a + SeriesMarker + b + SeriesMarker + c
    ensures ParseMediaKind(plat, url) != Series
  {
    var s := a + SeriesMarker + b + SeriesMarker + c;
    var second := |a| + |SeriesMarker| + |b|;
    assert s[|a|..|a| + |SeriesMarker|] == SeriesMarker;
    assert s[second..second + |SeriesMarker|] == SeriesMarker;
    assert MatchesAt(Literal(SeriesMarker), s, |a|);
    assert MatchesAt(Literal(SeriesMarker), s, second);
    forall p: nat ensures !OnlyOccurrence(s, SeriesMarker, 0, p) {
      if p <= |a| {
        assert p + |SeriesMarker| <= second;
      }
    }
  }

  /** The URLs of the kind test: a `series` directory is recognised. */
  lemma SeriesUrlExample(plat: Platform, url: Url)
    requires plat.absoluteString(url.line) == "test.com/series/123456"
    ensures ParseMediaKind(plat, url) == Series
  {
    assert "test.com/series/123456" == "test.com" + "/" + "series" + "/" + "123456";
    KindOfPath(plat, url, "test.com", "series", "123456");
  }

  /** A `live` directory is recognised. */
  lemma LiveUrlExample(plat: Platform, url: Url)
    requires plat.absoluteString(url.line) == "test.com/live/123456"
    ensures ParseMediaKind(plat, url) == Live
  {
    assert "test.com/live/123456" == "test.com" + "/" + "live" + "/" + "123456";
    KindOfPath(plat, url, "test.com", "live", "123456");
  }

  /** A `movie` directory is not `movies`: the kind is unknown. */
  lemma MovieUrlExample(plat: Platform, url: Url)
    requires plat.absoluteString(url.line) == "test.com/movie/123456"
    ensures ParseMediaKind(plat, url) == Unknown
  {
    assert "test.com/movie/123456" == "test.com" + "/" + "movie" + "/" + "123456";
    KindOfPath(plat, url, "test.com", "movie", "123456");
  }

  /** A URL without a directory is unknown. */
  lemma BareUrlExample(plat: Platform, url: Url)
    requires plat.absoluteString(url.line) == "test.com/123456"
    ensures ParseMediaKind(plat, url) == Unknown
  {
    assert "test.com/123456" == "test.com" + "/" + "123456";
    KindWithoutDirectory(plat, url, "test.com", "123456");
  }
}
