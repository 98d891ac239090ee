/**
 * `ChannelAttributesParser`: the eight `key="value"` attributes of a channel's
 * metadata line, each searched on its own.
 */
module ChannelAttributesParser {
  import opened Wrappers
  import opened Patterns
  import opened Model
  import opened TagLines

  /**
   * Each field is its own key's capture at that key's leftmost match, and unset
   * exactly when the key's pattern matches nowhere. Nothing can fail.
   */
  function Parse(input: string): (r: ChannelAttributes)
    ensures TagFound(input, IdKey, r.id)
    ensures TagFound(input, NameKey, r.name)
    ensures TagFound(input, CountryKey, r.country)
    ensures TagFound(input, LanguageKey, r.language)
    ensures TagFound(input, LogoKey, r.logo)
    ensures TagFound(input, ChannelNumberKey, r.channelNumber)
    ensures TagFound(input, ShiftKey, r.shift)
    ensures TagFound(input, GroupTitleKey, r.groupTitle)
  {
    NoChannelAttributes.(
      id := TagCapture(input, IdKey),
      name := TagCapture(input, NameKey),
      country := TagCapture(input, CountryKey),
      language := TagCapture(input, LanguageKey),
      logo := TagCapture(input, LogoKey),
      channelNumber := TagCapture(input, ChannelNumberKey),
      shift := TagCapture(input, ShiftKey),
      groupTitle := TagCapture(input, GroupTitleKey))
  }

  /** The attributes a written line declares: for every key, the first value written for it. */
  function Declared(ts: seq<Tagged>): ChannelAttributes {
    ChannelAttributes(
      Lookup(ts, IdKey), Lookup(ts, NameKey), Lookup(ts, CountryKey), Lookup(ts, LanguageKey),
      Lookup(ts, LogoKey), Lookup(ts, ChannelNumberKey), Lookup(ts, ShiftKey), Lookup(ts, GroupTitleKey))
  }

  /** Parsing a written line reads back exactly the attributes written on it. */
  lemma ParseWrittenLine(head: string, ts: seq<Tagged>, tail: string)
    requires WrittenLine(head, ts, tail)
    ensures Parse(head + TagsText(ts) + tail) == Declared(ts)
  {
    var s := head + TagsText(ts) + tail;
    ReadAttribute(head, ts, tail, IdKey);
    ReadAttribute(head, ts, tail, NameKey);
    ReadAttribute(head, ts, tail, CountryKey);
    ReadAttribute(head, ts, tail, LanguageKey);
    ReadAttribute(head, ts, tail, LogoKey);
    ReadAttribute(head, ts, tail, ChannelNumberKey);
    ReadAttribute(head, ts, tail, ShiftKey);
    ReadAttribute(head, ts, tail, GroupTitleKey);
  }

  /**
   * Tag order is irrelevant: the same tags with distinct keys, written in any order,
   * parse to the same attributes.
   */
  lemma ParseIgnoresTagOrder(head: string, ts: seq<Tagged>, us: seq<Tagged>, tail: string)
    requires WrittenLine(head, ts, tail) && WrittenLine(head, us, tail)
    requires DistinctKeys(ts) && DistinctKeys(us)
    requires forall t :: t in ts <==> t in us
    ensures Parse(head + TagsText(ts) + tail) == Parse(head + TagsText(us) + tail)
  {
    ParseWrittenLine(head, ts, tail);
    ParseWrittenLine(head, us, tail);
    forall k | k in AttributeKeys ensures Lookup(ts, k) == Lookup(us, k) {
      if Lookup(ts, k).Some? {
        LookupDistinct(us, Tagged(k, Lookup(ts, k).value));
      } else if Lookup(us, k).Some? {
        LookupDistinct(ts, Tagged(k, Lookup(us, k).value));
      }
    }
  }

  /**
   * The "DW English" example: whatever quote-free text follows the tags (the comma,
   * the display name, the next line), all eight values are read back.
   */
  lemma DwEnglishExample(tail: string)
    requires QuoteFree(tail)
    ensures Parse(DwEnglishHead + TagsText(DwEnglishTags) + tail)
            == ChannelAttributes(
                 Some("DWEnglish.de"), Some("DWEnglish.de"), Some("INT"), Some("English"),
                 Some("https://i.imgur.com/A1xzjOI.png"), Some("1"), Some("0"), Some("News"))
  {
    DwEnglishWritten(tail);
    DwEnglishLookup();
    ParseWrittenLine(DwEnglishHead, DwEnglishTags, tail);
  }
}
