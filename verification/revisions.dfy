/**
 * How the three revisions relate: the decomposed revision's parsers agree with the
 * canonical engine where their outputs overlap, and the oldest revision pairs lines
 * differently.
 */
module Revisions {
  import opened Wrappers
  import opened Text
  import opened Patterns
  import opened Model
  import LineScan
  import PlaylistParser
  import MediaKindParser
  import ChannelMetadataParser
  import ChannelParser
  import DecomposedPlaylistParser
  import LegacyPlaylistParser

  /** The canonical engine's kind detection and `MediaKindParser` give the same kind for every URL. */
  lemma KindParsersAgree(plat: Platform, url: Url)
    ensures PlaylistParser.ParseMediaKind(plat, url) == MediaKindParser.Parse(plat, url)
  {
    var k := PlaylistParser.ParseMediaKind(plat, url);
    MediaKindParser.ParseIsDetermined(plat, url, k);
  }

  /**
   * A media entry and a channel that carry the same duration, URL and six plain tags,
   * and, when series information is not removed, the same name.
   */
  predicate SameEntry(options: PlaylistParser.Options, m: Media, c: Channel) {
    && m.duration == c.duration && m.url == c.url
    && m.attributes.country == c.attributes.country
    && m.attributes.language == c.attributes.language
    && m.attributes.logo == c.attributes.logo
    && m.attributes.channelNumber == c.attributes.channelNumber
    && m.attributes.shift == c.attributes.shift
    && m.attributes.groupTitle == c.attributes.groupTitle
    && (!options.removeSeriesInfoFromText ==> m.name == c.name)
  }

  /** Without the removal option, the season/episode step never changes the text. */
  lemma SeasonEpisodeKeepsText(options: PlaylistParser.Options, input: string)
    requires !options.removeSeriesInfoFromText
    ensures PlaylistParser.ParseSeasonEpisode(options, input).name == input
  {
  }

  /**
   * One pair, built by both revisions: both succeed or both fail; on success the two
   * entries agree, on failure the errors carry the same line number and line.
   */
  lemma PairBuildsAlike(options: PlaylistParser.Options, plat: Platform, line: nat, meta: string, url: string)
    ensures var m := PlaylistParser.MakeMedia(options, plat, line, meta, url);
            var c := DecomposedPlaylistParser.MakeChannel(line, meta, url);
            && (m.Success? <==> c.Success?)
            && (m.Success? ==> SameEntry(options, m.value, c.value))
            && (m.Failure? ==> && m.error == PlaylistParser.MissingDuration(line, meta)
                               && c.error == DecomposedPlaylistParser.MetadataFailure(ChannelMetadataParser.MissingDuration(line, meta)))
  {
    var m := PlaylistParser.MakeMedia(options, plat, line, meta, url);
    var c := DecomposedPlaylistParser.MakeChannel(line, meta, url);
    if m.Success? {
      var a := PlaylistParser.ParseAttributes(options, plat, meta, Url(url));
      var b := ChannelMetadataParser.Parse(line, meta).value.attributes;
      assert m.value.attributes == a;
      assert c.value.attributes == b;
      TagFoundUnique(meta, CountryKey, a.country, b.country);
      TagFoundUnique(meta, LanguageKey, a.language, b.language);
      TagFoundUnique(meta, LogoKey, a.logo, b.logo);
      TagFoundUnique(meta, ChannelNumberKey, a.channelNumber, b.channelNumber);
      TagFoundUnique(meta, ShiftKey, a.shift, b.shift);
      TagFoundUnique(meta, GroupTitleKey, a.groupTitle, b.groupTitle);
      if !options.removeSeriesInfoFromText {
        SeasonEpisodeKeepsText(options, NameOrEmpty(meta));
      }
    }
  }

  /** Two build results that succeed together, related by `same`, or fail together, related by `err`. */
  predicate Alike<A, B, E1, E2>(r1: Result<A, E1>, r2: Result<B, E2>, same: (A, B) -> bool, err: (E1, E2) -> bool) {
    && (r1.Success? <==> r2.Success?)
    && (r1.Success? && r2.Success? ==> same(r1.value, r2.value))
    && (r1.Failure? && r2.Failure? ==> err(r1.error, r2.error))
  }

  /** Building the same pairs with two builders that agree pair by pair gives outcomes that agree entry by entry. */
  lemma {:induction false} AssembleAlike<A, B, E1, E2>(b1: (nat, string, string) -> Result<A, E1>, b2: (nat, string, string) -> Result<B, E2>,
                                                     ps: seq<LineScan.Pair>, same: (A, B) -> bool, err: (E1, E2) -> bool)
    requires forall k :: 0 <= k < |ps| ==> Alike(LineScan.BuildPair(b1, ps[k]), LineScan.BuildPair(b2, ps[k]), same, err)
    ensures var c := LineScan.Assemble(b1, ps);
            var d := LineScan.Assemble(b2, ps);
            && |c.emitted| == |d.emitted|
            && (c.failure.None? <==> d.failure.None?)
            && (forall k :: 0 <= k < |c.emitted| ==> same(c.emitted[k], d.emitted[k]))
            && (c.failure.Some? && d.failure.Some? ==> err(c.failure.value, d.failure.value))
  {
    if ps != [] {
      assert Alike(LineScan.BuildPair(b1, ps[0]), LineScan.BuildPair(b2, ps[0]), same, err);
      if LineScan.BuildPair(b1, ps[0]).Success? {
        forall k | 0 <= k < |ps[1..]|
          ensures Alike(LineScan.BuildPair(b1, ps[1..][k]), LineScan.BuildPair(b2, ps[1..][k]), same, err)
        {
          assert ps[1..][k] == ps[k + 1];
        }
        AssembleAlike(b1, b2, ps[1..], same, err);
        var c := LineScan.Assemble(b1, ps);
        var d := LineScan.Assemble(b2, ps);
        var rc := LineScan.Assemble(b1, ps[1..]);
        var rd := LineScan.Assemble(b2, ps[1..]);
        forall k | 0 <= k < |c.emitted| ensures same(c.emitted[k], d.emitted[k]) {
          if k > 0 {
            assert c.emitted[k] == rc.emitted[k - 1] && d.emitted[k] == rd.emitted[k - 1];
          }
        }
      }
    }
  }

  /** The error correspondence between the two revisions: same line number, same line. */
  predicate SameError(e1: PlaylistParser.ParsingError, e2: DecomposedPlaylistParser.ParsingError) {
    e1.MissingDuration? && e2 == DecomposedPlaylistParser.MetadataFailure(ChannelMetadataParser.MissingDuration(e1.line, e1.raw))
  }

  /** The same pairs, built by both revisions, give entries that agree one for one and the same stopping error. */
  lemma AssembledAlike(options: PlaylistParser.Options, plat: Platform, ps: seq<LineScan.Pair>)
    ensures var c := LineScan.Assemble(PlaylistParser.Builder(options, plat), ps);
            var d := LineScan.Assemble(DecomposedPlaylistParser.Builder(), ps);
            && |c.emitted| == |d.emitted|
            && (c.failure.None? <==> d.failure.None?)
            && (forall k :: 0 <= k < |c.emitted| ==> SameEntry(options, c.emitted[k], d.emitted[k]))
            && (c.failure.Some? ==> SameError(c.failure.value, d.failure.value))
  {
    var same := (m: Media, c: Channel) => SameEntry(options, m, c);
    var err := (e1: PlaylistParser.ParsingError, e2: DecomposedPlaylistParser.ParsingError) => SameError(e1, e2);
    var bc := PlaylistParser.Builder(options, plat);
    var bd := DecomposedPlaylistParser.Builder();
    forall k | 0 <= k < |ps| ensures Alike(LineScan.BuildPair(bc, ps[k]), LineScan.BuildPair(bd, ps[k]), same, err) {
      var p := ps[k];
      PairBuildsAlike(options, plat, p.line, p.meta, p.url);
    }
    AssembleAlike(bc, bd, ps, same, err);
  }

  /**
   * The canonical engine and the decomposed revision read a playlist alike: the same
   * sources are rejected, the same playlists fail on the same pair, and a successful
   * parse gives as many entries as channels, pairwise agreeing.
   */
  lemma CanonicalAndDecomposedAgree(options: PlaylistParser.Options, plat: Platform, input: Option<string>)
    ensures var m := PlaylistParser.Parse(options, plat, input);
            var c := DecomposedPlaylistParser.Parse(plat, input);
            && (m == Failure(PlaylistParser.InvalidSource) <==> c == Failure(DecomposedPlaylistParser.InvalidSource))
            && (m.Success? <==> c.Success?)
            && (m.Success? ==> && |m.value.medias| == |c.value.channels|
                               && forall k :: 0 <= k < |m.value.medias| ==> SameEntry(options, m.value.medias[k], c.value.channels[k]))
            && (m.Failure? && m.error.MissingDuration? ==> c.Failure? && SameError(m.error, c.error))
  {
    if PlaylistParser.ExtractRawString(input).Success? {
      var raw := PlaylistParser.ExtractRawString(input).value;
      assert DecomposedPlaylistParser.ExtractRawString(input) == Success(raw);
      var ps := LineScan.Pairing(plat.lines(raw), plat.isUrl);
      LineScan.ScanAssembles(plat.lines(raw), plat.isUrl, PlaylistParser.Builder(options, plat));
      LineScan.ScanAssembles(plat.lines(raw), plat.isUrl, DecomposedPlaylistParser.Builder());
      AssembledAlike(options, plat, ps);
    }
  }

  /** A source made of the marker and `raw` passes the marker check, leaving `raw`. */
  lemma MarkedSource(raw: string)
    ensures StartsWith(Header + raw, Header)
    ensures DecomposedPlaylistParser.ExtractRawString(Some(Header + raw)) == Success(raw)
  {
    assert (Header + raw)[..|Header|] == Header;
    assert (Header + raw)[|Header|..] == raw;
  }

  /**
   * The oldest revision reuses a metadata line for every URL line after it: a
   * metadata line followed by two URL lines is two channels with that metadata.
   */
  lemma LegacyReusesMetadata(plat: Platform, raw: string, meta: string, url1: string, url2: string)
    requires plat.lines(Header + raw) == [Header, meta, url1, url2]
    requires !plat.isUrl(Header) && !plat.isUrl(meta) && plat.isUrl(url1) && plat.isUrl(url2)
    requires DurationValue(meta).Some?
    ensures var l := LegacyPlaylistParser.Parse(plat, Some(Header + raw));
            && l.Success? && |l.value.channels| == 2
            && Success(l.value.channels[0]) == ChannelParser.Parse(meta, Url(url1))
            && Success(l.value.channels[1]) == ChannelParser.Parse(meta, Url(url2))
  {
    MarkedSource(raw);
    var lines := [Header, meta, url1, url2];
    var isUrl := plat.isUrl;
    var c1 := ChannelParser.Parse(meta, Url(url1)).value;
    var c2 := ChannelParser.Parse(meta, Url(url2)).value;
    assert LegacyPlaylistParser.MakeChannel(meta, url1) == Success(c1);
    assert LegacyPlaylistParser.MakeChannel(meta, url2) == Success(c2);
    var r4 := LegacyPlaylistParser.Run(lines, isUrl, 4, Some(meta), [c1, c2]);
    assert r4 == LineScan.Outcome([c1, c2], None);
    var r3 := LegacyPlaylistParser.Run(lines, isUrl, 3, Some(meta), [c1]);
    assert [c1] + [c2] == [c1, c2];
    assert r3 == r4;
    var r2 := LegacyPlaylistParser.Run(lines, isUrl, 2, Some(meta), []);
    assert [] + [c1] == [c1];
    assert r2 == r3;
    assert LegacyPlaylistParser.Run(lines, isUrl, 1, Some(Header), []) == r2;
    assert LegacyPlaylistParser.Run(lines, isUrl, 0, None, []) == r2;
  }

  /**
   * The later revisions clear the metadata once a channel is built: the same lines
   * after the marker make one channel, with the first URL.
   */
  lemma DecomposedClearsMetadata(plat: Platform, raw: string, meta: string, url1: string, url2: string)
    requires plat.lines(raw) == [meta, url1, url2]
    requires plat.isUrl(url1) && plat.isUrl(url2)
    requires LineScan.IsInfoLine(meta) && !LineScan.IsInfoLine(url1) && !LineScan.IsInfoLine(url2)
    requires DurationValue(meta).Some?
    ensures var c := DecomposedPlaylistParser.Parse(plat, Some(Header + raw));
            && c.Success? && |c.value.channels| == 1
            && c.value.channels[0].url == Url(url1)
  {
    MarkedSource(raw);
    var lines := [meta, url1, url2];
    var isUrl := plat.isUrl;
    var b := DecomposedPlaylistParser.Builder();
    var d := DecomposedPlaylistParser.MakeChannel(1, meta, url1).value;
    assert b(1, meta, url1) == Success(d);
    var idle := LineScan.Idle;
    var r3 := LineScan.Run(lines, isUrl, b, 3, LineScan.Pending(None, Some(url2)), [d]);
    assert r3 == LineScan.Outcome([d], None);
    assert LineScan.Run(lines, isUrl, b, 2, idle, [d]) == r3;
    var r1 := LineScan.Run(lines, isUrl, b, 1, LineScan.Pending(Some(meta), None), []);
    assert [] + [d] == [d];
    assert r1 == r3;
    assert LineScan.Run(lines, isUrl, b, 0, idle, []) == r1;
  }
}
