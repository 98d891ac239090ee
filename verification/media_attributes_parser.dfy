/**
 * `MediaAttributesParser` of the decomposed revision: the eight tags of a media's
 * metadata line, with the name tag handed to the season/episode parser.
 */
module MediaAttributesParser {
  import opened Wrappers
  import opened Patterns
  import opened Model
  import opened TagLines

  /**
   * Every tag is its own key's capture, unset when absent; unlike the canonical engine
   * the id has no "" default. When the name tag is present, the name and the two
   * numbers are what `seasonEpisode` (the season/episode parser) makes of it; when it
   * is absent all three are unset.
   */
  function Parse(seasonEpisode: string -> Show, input: string): (r: Attributes)
    ensures TagFound(input, IdKey, r.id)
    ensures r.name.None? <==> TagCapture(input, NameKey).None?
    ensures r.name.None? ==> r.seasonNumber.None? && r.episodeNumber.None?
    ensures r.name.Some? ==>
              var show := seasonEpisode(TagCapture(input, NameKey).value);
              && r.name == Some(show.name)
              && (r.seasonNumber.Some? <==> show.se.Some?) && (r.episodeNumber.Some? <==> show.se.Some?)
              && (show.se.Some? ==> r.seasonNumber == Some(show.se.value.s) && r.episodeNumber == Some(show.se.value.e))
    ensures TagFound(input, CountryKey, r.country)
    ensures TagFound(input, LanguageKey, r.language)
    ensures TagFound(input, LogoKey, r.logo)
    ensures TagFound(input, ChannelNumberKey, r.channelNumber)
    ensures TagFound(input, ShiftKey, r.shift)
    ensures TagFound(input, GroupTitleKey, r.groupTitle)
  {
    var a := NoAttributes.(id := TagCapture(input, IdKey));
    var a := match TagCapture(input, NameKey)
      case None => a
      case Some(name) =>
        var show := seasonEpisode(name);
        a.(name := Some(show.name),
           seasonNumber := if show.se.Some? then Some(show.se.value.s) else None,
           episodeNumber := if show.se.Some? then Some(show.se.value.e) else None);
    a.(country := TagCapture(input, CountryKey),
       language := TagCapture(input, LanguageKey),
       logo := TagCapture(input, LogoKey),
       channelNumber := TagCapture(input, ChannelNumberKey),
       shift := TagCapture(input, ShiftKey),
       groupTitle := TagCapture(input, GroupTitleKey))
  }

  /**
   * Parsing a written line: every tag but the name reads back its written value
   * (the id included, and unset when not written); the name and the numbers are the
   * season/episode parser's reading of the written name.
   */
  lemma ParseWrittenLine(seasonEpisode: string -> Show, head: string, ts: seq<Tagged>, tail: string)
    requires WrittenLine(head, ts, tail)
    ensures var r := Parse(seasonEpisode, head + TagsText(ts) + tail);
            && r.id == Lookup(ts, IdKey)
            && r.country == Lookup(ts, CountryKey) && r.language == Lookup(ts, LanguageKey)
            && r.logo == Lookup(ts, LogoKey) && r.channelNumber == Lookup(ts, ChannelNumberKey)
            && r.shift == Lookup(ts, ShiftKey) && r.groupTitle == Lookup(ts, GroupTitleKey)
            && (Lookup(ts, NameKey).None? ==> r.name.None? && r.seasonNumber.None? && r.episodeNumber.None?)
            && (Lookup(ts, NameKey).Some? ==> r.name == Some(seasonEpisode(Lookup(ts, NameKey).value).name))
  {
    ReadAttribute(head, ts, tail, IdKey);
    ReadAttribute(head, ts, tail, NameKey);
    ReadAttribute(head, ts, tail, CountryKey);
    ReadAttribute(head, ts, tail, LanguageKey);
    ReadAttribute(head, ts, tail, LogoKey);
    ReadAttribute(head, ts, tail, ChannelNumberKey);
    ReadAttribute(head, ts, tail, ShiftKey);
    ReadAttribute(head, ts, tail, GroupTitleKey);
  }

  /**
   * The "DW English" example: whatever quote-free text follows the tags, the seven
   * plain values are read back and the name is the season/episode parser's reading
   * of "DWEnglish.de".
   */
  lemma DwEnglishExample(seasonEpisode: string -> Show, tail: string)
    requires QuoteFree(tail)
    ensures var r := Parse(seasonEpisode, DwEnglishHead + TagsText(DwEnglishTags) + tail);
            && r.id == Some("DWEnglish.de")
            && r.name == Some(seasonEpisode("DWEnglish.de").name)
            && r.country == Some("INT")
            && r.language == Some("English")
            && r.logo == Some("https://i.imgur.com/A1xzjOI.png")
            && r.channelNumber == Some("1")
            && r.shift == Some("0")
            && r.groupTitle == Some("News")
  {
    DwEnglishWritten(tail);
    DwEnglishLookup();
    ParseWrittenLine(seasonEpisode, DwEnglishHead, DwEnglishTags, tail);
  }
}
