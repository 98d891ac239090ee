/** The records the parsers produce, and the Foundation behaviour they rely on. */
module Model {
  import opened Wrappers

  /**
   * Foundation's part, left uninterpreted: `URL(string:)` succeeding, a URL's
   * `absoluteString` and `lastPathComponent` (both given the line the URL was
   * made from), and `enumerateLines`.
   */
  datatype Platform = Platform(
    isUrl: string -> bool,
    absoluteString: string -> string,
    lastPathComponent: string -> string,
    lines: string -> seq<string>)

  /** A URL, represented by the line `URL(string:)` accepted. */
  datatype Url = Url(line: string)

  /** The marker every playlist must start with. */
  const Header: string := "#EXTM3U"

  /** `Playlist.Media.Kind`. */
  datatype Kind = Movie | Series | Live | Unknown

  /** `Playlist.Media.Attributes`. */
  datatype Attributes = Attributes(
    id: Option<string>,
    name: Option<string>,
    country: Option<string>,
    language: Option<string>,
    logo: Option<string>,
    channelNumber: Option<string>,
    shift: Option<string>,
    groupTitle: Option<string>,
    seasonNumber: Option<int>,
    episodeNumber: Option<int>)

  /** `Attributes()`: every field unset. */
  const NoAttributes: Attributes :=
    Attributes(None, None, None, None, None, None, None, None, None, None)

  /** `Playlist.Media`. */
  datatype Media = Media(duration: int, attributes: Attributes, kind: Kind, name: string, url: Url)

  /** `Playlist`, as the canonical engine builds it. */
  datatype Playlist = Playlist(medias: seq<Media>)

  /** `ChannelAttributes`: the eight tags of the older revisions. */
  datatype ChannelAttributes = ChannelAttributes(
    id: Option<string>,
    name: Option<string>,
    country: Option<string>,
    language: Option<string>,
    logo: Option<string>,
    channelNumber: Option<string>,
    shift: Option<string>,
    groupTitle: Option<string>)

  const NoChannelAttributes: ChannelAttributes :=
    ChannelAttributes(None, None, None, None, None, None, None, None)

  /** `Channel` (and the channel record of the decomposed revision, which has the same fields). */
  datatype Channel = Channel(duration: int, attributes: ChannelAttributes, name: string, url: Url)

  /** `Playlist(channels:)` of the older revisions. */
  datatype ChannelPlaylist = ChannelPlaylist(channels: seq<Channel>)

  /** The season and episode numbers found in a name. */
  datatype SeasonEpisode = SeasonEpisode(s: int, e: int)

  /** `Show`: the possibly rewritten name and the numbers found in it. */
  datatype Show = Show(name: string, se: Option<SeasonEpisode>)
}
