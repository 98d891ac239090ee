/**
 * The decomposed revision's `PlaylistParser`: the same scan as the canonical
 * engine, delegating each completed pair to `ChannelMetadataParser` and producing
 * channels.
 */
module DecomposedPlaylistParser {
  import opened Wrappers
  import opened Text
  import opened Patterns
  import opened Model
  import LineScan
  import ChannelMetadataParser
  import ChannelAttributesParser

  /** What `parse` can throw: its own `invalidSource`, or the metadata parser's error passed on. */
  datatype ParsingError = InvalidSource | MetadataFailure(cause: ChannelMetadataParser.ParsingError)

  /** The source text without its `#EXTM3U` marker; a missing source or marker is `invalidSource`. */
  function ExtractRawString(input: Option<string>): (r: Result<string, ParsingError>)
    ensures r.Failure? <==> input.None? || !StartsWith(input.value, Header)
    ensures r.Failure? ==> r.error == InvalidSource
    ensures r.Success? ==> |r.value| == |input.value| - 7 && input.value == "#EXTM3U" + r.value
  {
    if input.None? || !StartsWith(input.value, Header) then Failure(InvalidSource)
    else
      assert input.value == Header + input.value[|Header|..];
      Success(input.value[|Header|..])
  }

  /** A completed pair: the metadata line parsed with the current line number, then the channel. */
  function MakeChannel(line: nat, metadataLine: string, urlLine: string): (r: Result<Channel, ParsingError>)
    ensures r.Failure? <==> DurationValue(metadataLine).None?
    ensures r.Failure? ==> r.error == MetadataFailure(ChannelMetadataParser.MissingDuration(line, metadataLine))
    ensures r.Success? ==> && Some(r.value.duration) == DurationValue(metadataLine)
                           && r.value.attributes == ChannelAttributesParser.Parse(metadataLine)
                           && r.value.name == NameOrEmpty(metadataLine)
                           && r.value.url == Url(urlLine)
  {
    match ChannelMetadataParser.Parse(line, metadataLine)
    case Failure(e) => Failure(MetadataFailure(e))
    case Success(m) => Success(Channel(m.duration, m.attributes, m.name, Url(urlLine)))
  }

  function Builder(): (nat, string, string) -> Result<Channel, ParsingError> {
    (line: nat, metadataLine: string, urlLine: string) => MakeChannel(line, metadataLine, urlLine)
  }

  /** Batch mode: every channel, or the first metadata error and no playlist. */
  function Parse(plat: Platform, input: Option<string>): (r: Result<ChannelPlaylist, ParsingError>)
    ensures ExtractRawString(input).Failure? ==> r == Failure(InvalidSource)
    ensures ExtractRawString(input).Success? && r.Failure? ==> r.error.MetadataFailure?
  {
    match ExtractRawString(input)
    case Failure(e) => Failure(e)
    case Success(raw) =>
      var o := LineScan.Scan(plat.lines(raw), plat.isUrl, Builder());
      LineScan.ScanAssembles(plat.lines(raw), plat.isUrl, Builder());
      if o.failure.None? then Success(ChannelPlaylist(o.emitted)) else Failure(o.failure.value)
  }

  /**
   * Incremental mode: the handler's calls in order. They are exactly the batch
   * channels on success, and on failure the channels completed before the failing
   * pair, with the batch error.
   */
  method Walk(plat: Platform, input: Option<string>) returns (delivered: seq<Channel>, failure: Option<ParsingError>)
    ensures failure.None? <==> Parse(plat, input).Success?
    ensures failure.None? ==> Parse(plat, input) == Success(ChannelPlaylist(delivered))
    ensures failure.Some? ==> Parse(plat, input) == Failure(failure.value)
    ensures ExtractRawString(input).Failure? ==> delivered == []
    ensures ExtractRawString(input).Success? ==>
              LineScan.Outcome(delivered, failure)
              == LineScan.Assemble(Builder(), LineScan.Pairing(plat.lines(ExtractRawString(input).value), plat.isUrl))
  {
    match ExtractRawString(input)
    case Failure(e) =>
      delivered, failure := [], Some(e);
    case Success(raw) =>
      delivered, failure := LineScan.Walk(plat.lines(raw), plat.isUrl, Builder());
      LineScan.ScanAssembles(plat.lines(raw), plat.isUrl, Builder());
  }

  // ---------------------------------------------------------------------------
  // Properties.

  function SourcePairs(plat: Platform, input: Option<string>): seq<LineScan.Pair>
    requires ExtractRawString(input).Success?
  {
    LineScan.Pairing(plat.lines(ExtractRawString(input).value), plat.isUrl)
  }

  /**
   * The batch result in terms of the pairing rule: it succeeds exactly when every
   * pair's metadata line declares a duration, and then holds one channel per pair, in
   * pair order; otherwise the error names the first pair without one, by the
   * 0-based index of the line that completed it.
   */
  lemma ParseFollowsPairing(plat: Platform, input: Option<string>)
    requires ExtractRawString(input).Success?
    ensures var pairs := SourcePairs(plat, input);
            Parse(plat, input).Success? <==> forall k :: 0 <= k < |pairs| ==> DurationValue(pairs[k].meta).Some?
    ensures var pairs := SourcePairs(plat, input);
            var r := Parse(plat, input);
            r.Success? ==> |r.value.channels| == |pairs|
                           && forall k :: 0 <= k < |pairs| ==>
                                MakeChannel(pairs[k].line, pairs[k].meta, pairs[k].url) == Success(r.value.channels[k])
    ensures var pairs := SourcePairs(plat, input);
            var r := Parse(plat, input);
            r.Failure? ==> exists k :: && 0 <= k < |pairs|
                                       && (forall j :: 0 <= j < k ==> DurationValue(pairs[j].meta).Some?)
                                       && r.error == MetadataFailure(ChannelMetadataParser.MissingDuration(pairs[k].line, pairs[k].meta))
  {
    var pairs := SourcePairs(plat, input);
    var a := LineScan.Assemble(Builder(), pairs);
    LineScan.ScanAssembles(plat.lines(ExtractRawString(input).value), plat.isUrl, Builder());
    if a.failure.Some? {
      var k := |a.emitted|;
      assert LineScan.BuildPair(Builder(), pairs[k]) == Failure(a.failure.value);
      forall j | 0 <= j < k ensures DurationValue(pairs[j].meta).Some? {
        assert LineScan.BuildPair(Builder(), pairs[j]).Success?;
      }
    } else {
      forall k | 0 <= k < |pairs|
        ensures MakeChannel(pairs[k].line, pairs[k].meta, pairs[k].url) == Success(a.emitted[k])
      {
        assert LineScan.BuildPair(Builder(), pairs[k]) == Success(a.emitted[k]);
      }
    }
  }

  /** Fail-fast: lines after the one that failed cannot change the outcome. */
  lemma ParseIgnoresLinesAfterFailure(plat: Platform, input: Option<string>, longer: Option<string>, extra: seq<string>)
    requires ExtractRawString(input).Success? && ExtractRawString(longer).Success?
    requires plat.lines(ExtractRawString(longer).value) == plat.lines(ExtractRawString(input).value) + extra
    requires Parse(plat, input).Failure?
    ensures Parse(plat, longer) == Parse(plat, input)
  {
    LineScan.RunStops(plat.lines(ExtractRawString(input).value), extra, plat.isUrl, Builder(), 0, LineScan.Idle, []);
  }
}
