/**
 * `ChannelParser` of the oldest revision: a channel from a metadata line and the URL
 * that follows it.
 */
module ChannelParser {
  import opened Wrappers
  import opened Patterns
  import opened Model
  import ChannelAttributesParser

  /** `invalidChannel`: carries no line information. */
  datatype ParsingError = InvalidChannel

  /** The declared duration, or `invalidChannel`. */
  function ExtractDuration(metadata: string): (r: Result<int, ParsingError>)
    ensures r.Success? <==> DurationValue(metadata).Some?
    ensures r.Success? ==> DurationValue(metadata) == Some(r.value)
    ensures r.Failure? ==> r.error == InvalidChannel
  {
    match DurationValue(metadata)
    case None => Failure(InvalidChannel)
    case Some(d) => Success(d)
  }

  function ExtractName(metadata: string): (r: string)
    ensures CommaName(metadata, r)
  {
    NameOrEmpty(metadata)
  }

  /**
   * Duration first, and its failure is the only one. The URL is kept as given; the
   * attributes and the name come from the metadata line alone.
   */
  function Parse(metadata: string, url: Url): (r: Result<Channel, ParsingError>)
    ensures r.Failure? <==> DurationValue(metadata).None?
    ensures r.Failure? ==> r.error == InvalidChannel
    ensures r.Success? ==> && Some(r.value.duration) == DurationValue(metadata)
                           && r.value.attributes == ChannelAttributesParser.Parse(metadata)
                           && r.value.name == NameOrEmpty(metadata)
                           && r.value.url == url
  {
    match ExtractDuration(metadata)
    case Failure(e) => Failure(e)
    case Success(duration) =>
      Success(Channel(duration, ChannelAttributesParser.Parse(metadata), ExtractName(metadata), url))
  }

  /** `extractName("invalid")` is "" and `extractName(",valid")` is "valid". */
  lemma NameExamples()
    ensures ExtractName("invalid") == ""
    ensures ExtractName(",valid") == "valid"
  {
    assert ",valid"[0] == ',';
    assert ",valid"[1..] == "valid";
  }

  /** `extractDuration("invalid")` fails. */
  lemma DurationExample()
    ensures ExtractDuration("invalid").Failure?
  {
    assert forall p: nat :: !MatchesAt(Duration, "invalid", p) by {
      forall p: nat ensures !MatchesAt(Duration, "invalid", p) {
        assert p + |InfoPrefix| > |"invalid"|;
      }
    }
  }
}
