/**
 * `ChannelMetadataParser` of the decomposed revision: duration, attributes and name
 * of one `#EXTINF:` line, for the scan to pair with a URL.
 */
module ChannelMetadataParser {
  import opened Wrappers
  import opened Text
  import opened Patterns
  import opened Model
  import ChannelAttributesParser

  datatype ParsingError = MissingDuration(line: int, raw: string)

  /** `Playlist.Channel.Metadata`. */
  datatype Metadata = Metadata(duration: int, attributes: ChannelAttributes, name: string)

  /** The line begins with the eight characters `#EXTINF:`. */
  function IsInfoLine(input: string): (r: bool)
    ensures r <==> |input| >= 8 && forall i :: 0 <= i < 8 ==> input[i] == InfoPrefix[i]
  {
    StartsWith(input, InfoPrefix)
  }

  /**
   * The signed number after the first `#EXTINF:` followed by hyphens and digits; when
   * there is none, or it is not an `Int`, `missingDuration` with the given line
   * number and the line unchanged.
   */
  function ExtractDuration(line: int, rawString: string): (r: Result<int, ParsingError>)
    ensures r.Success? <==> DurationValue(rawString).Some?
    ensures r.Success? ==> DurationValue(rawString) == Some(r.value)
    ensures r.Failure? ==> r.error == MissingDuration(line, rawString)
  {
    match DurationValue(rawString)
    case None => Failure(MissingDuration(line, rawString))
    case Some(d) => Success(d)
  }

  function ExtractName(input: string): (r: string)
    ensures CommaName(input, r)
  {
    NameOrEmpty(input)
  }

  /**
   * Duration first: when it fails nothing else is produced. Otherwise the metadata
   * holds the duration, the channel attributes of the line, and its comma name.
   */
  function Parse(line: int, rawString: string): (r: Result<Metadata, ParsingError>)
    ensures r.Failure? <==> DurationValue(rawString).None?
    ensures r.Failure? ==> r.error == MissingDuration(line, rawString)
    ensures r.Success? ==> Some(r.value.duration) == DurationValue(rawString)
    ensures r.Success? ==> r.value.attributes == ChannelAttributesParser.Parse(rawString)
    ensures r.Success? ==> r.value.name == NameOrEmpty(rawString)
  {
    match ExtractDuration(line, rawString)
    case Failure(e) => Failure(e)
    case Success(duration) =>
      Success(Metadata(duration, ChannelAttributesParser.Parse(rawString), ExtractName(rawString)))
  }
}
