# M3UKit playlist parsing, modelled in Dafny

M3UKit reads extended-M3U (IPTV) playlists. A playlist starts with the `#EXTM3U` marker. Each entry is written as two lines:

- a metadata line such as `#EXTINF:-1 tvg-id="…" group-title="News",Name`;
- a URL line.

The parser walks the text line by line, pairs each metadata line with a URL line, and builds one entry per pair. It reads the duration, the quoted `tvg-*` attributes and the display name out of the metadata line. The canonical revision also works out a media kind and a season/episode number. The first metadata line without a duration stops the parse with an error.

The model covers three revisions of this engine, one module each:

- `PlaylistParser` is the canonical engine (`Sources/M3UKit/PlaylistParser.swift`). It yields `Media` entries, which carry a kind, season/episode numbers and the options `extractIdFromURL` and `removeSeriesInfoFromText`.
- `DecomposedPlaylistParser` is the same loop split into small parsers (`Sources/M3UKit/Parsers/`). Those parsers are modelled in `ChannelMetadataParser`, `MediaAttributesParser` and `MediaKindParser`.
- `LegacyPlaylistParser` is the oldest revision (`Sources/M3UKit/Playlist/PlaylistParser.swift`). It keeps the last non-URL line and builds a channel for every URL line that follows it. It uses `ChannelParser` and `ChannelAttributesParser`.

Shared pieces:

- `Text`: ASCII digits, and Swift's `Int(String)` with its 64-bit range.
- `Patterns`: each regular expression the source uses, as an explicit leftmost-match search.
- `TagLines`: lines written out of `key="value"` tags.
- `LineScan`: the pairing loop, shared by the canonical and decomposed revisions. It is parametrised by the URL test and by the per-pair builder.
- `Revisions`: states how the three revisions relate to each other.

Foundation enters as a `Platform` value of functions: `URL(string:)` as `isUrl`, `absoluteString`, `lastPathComponent`, and `enumerateLines` as `lines`. A URL is represented by the line it was parsed from. `SeasonEpisodeParser`, which the decomposed attribute parser calls, is a function parameter.

## Model

| member | source | states |
|---|---|---|
| Text.ParseInt | Sources/M3UKit/PlaylistParser.swift:236-244 | Swift `Int(String)` gives a value only for non-empty text, and the value fits 64 bits. Bare digits, `+digits` and `-digits` give their signed value when it fits and nil when it does not. A lone sign is nil. So is any text with a non-digit after the optional sign. |
| Text.ParseIntText | Sources/M3UKit/PlaylistParser.swift:236-244 | Printing any 64-bit integer and converting it back gives the same integer. |
| Text.Decimal | Sources/M3UKit/PlaylistParser.swift:236-244 | The decimal spelling of `n` is digits only, has no leading zero, and its value is `n`. |
| Text.FirstPiece | Sources/M3UKit/PlaylistParser.swift:250-252 | The first piece that `split(separator:)` yields has no separator. It is empty exactly when the text is all separators. Otherwise it sits after leading separators only and is ended by a separator or the end of the text. |
| Text.FirstPieceIs | Sources/M3UKit/PlaylistParser.swift:250-252 | A separator-free, non-empty piece at the start, followed by a separator or the end, is what `split(...).first` returns. |
| Patterns.FirstMatch | Sources/M3UKit/RegularExpression.swift:38-47 | The search returns a position where the pattern matches and where it matches nowhere earlier. It returns nothing exactly when the pattern matches nowhere. |
| Patterns.DurationCapture | Sources/M3UKit/PlaylistParser.swift:320 | `#EXTINF:(\-*\d+)` captures something exactly when it matches somewhere. A capture is a run of hyphens followed by at least one digit and nothing else. |
| Patterns.CaptureConverts | Sources/M3UKit/PlaylistParser.swift:236-244 | `Int` of a hyphens-then-digits capture: with no hyphen it is the digits' value, and with one hyphen the negated value, each only when it fits 64 bits. With two or more hyphens it is nil. |
| Patterns.DurationValue | Sources/M3UKit/PlaylistParser.swift:236-244 | No capture means no duration, and a duration fits 64 bits. An unsigned capture gives its digits' value if it fits. A capture with one hyphen gives the negated value if that fits. Two or more hyphens give none. |
| Patterns.DurationRoundTrip | Sources/M3UKit/PlaylistParser.swift:236-244 | `#EXTINF:` followed by any printed 64-bit duration and then a non-digit reads back that duration. |
| Patterns.DurationCaptureIs | Sources/M3UKit/PlaylistParser.swift:320 | After `#EXTINF:`, a run of hyphens and then digits that end at a non-digit is exactly what the duration regex captures. |
| Patterns.DurationMatchesFirst | Sources/M3UKit/PlaylistParser.swift:320 | On a line that starts with `#EXTINF:` and continues with hyphens and at least one digit, the capture is that leading run. No later match wins. |
| Patterns.DoubleHyphenRejected | Sources/M3UKit/PlaylistParser.swift:236-244 | `#EXTINF:--5` matches the regex, but `Int` refuses `--5`, so there is no duration. |
| Patterns.OverflowRejected | Sources/M3UKit/PlaylistParser.swift:236-244 | A duration beyond the 64-bit range matches the regex but gives no duration. |
| Patterns.NameCapture | Sources/M3UKit/PlaylistParser.swift:321 | `.*,(.+?)$` captures something exactly when a comma stands before the last character. The capture is the non-empty text after the LAST such comma, and it holds no comma except possibly as its final character. |
| Patterns.NameOrEmpty | Sources/M3UKit/PlaylistParser.swift:246-248 | The name is empty exactly when no comma precedes the last character. Otherwise it is the suffix after the last comma. |
| Patterns.TagCapture | Sources/M3UKit/PlaylistParser.swift:329-336 | `key="(.?\|.+?)"` yields nothing when it matches nowhere. Otherwise it yields the group of its leftmost match. |
| Patterns.TagFoundUnique | Sources/M3UKit/RegularExpression.swift:38-47 | A line determines the value of a tag search: two results that both satisfy the leftmost-match description are equal. |
| Patterns.TagValueAt | Sources/M3UKit/PlaylistParser.swift:329-336 | The group `(.?\|.+?)"` is nothing exactly when no quote follows. Otherwise it is either a lone `"` (when `""` follows) or the quote-free text up to the next quote. |
| Patterns.SeasonEpisodeAt | Sources/M3UKit/PlaylistParser.swift:327 | A match of ` S(\d+) E(\d+)` at a position spells ` S<season> E<episode>` there. Both groups are non-empty digit runs, and the episode run is not followed by a digit. |
| Patterns.SeasonEpisodeCapture | Sources/M3UKit/RegularExpression.swift:49-61 | `matchingRanges` gives the leftmost season/episode match, or nothing exactly when there is no match anywhere. |
| Patterns.CountMatches | Sources/M3UKit/RegularExpression.swift:33-36 | The count of non-overlapping occurrences is positive exactly when the literal occurs. It is one exactly when the literal occurs and nothing starts at or after the end of its leftmost occurrence. |
| Patterns.CountOnce | Sources/M3UKit/RegularExpression.swift:33-36 | From any position, a leftmost-first count of one is the same as the literal occurring with no other occurrence starting after the first one ends. |
| TagLines.Lookup | Sources/M3UKit/PlaylistParser.swift:268-300 | The reference reading of a written line: the value of the first tag with the key, or nothing exactly when no tag has it. |
| TagLines.TagsRead | Sources/M3UKit/PlaylistParser.swift:329-336 | Take a line made of quote-free text, then tags, then a tail that does not start with a quote. Each searchable key's regex reads the first value written for it, provided no other tag's key ends in that key and no other tag's value ends in that key followed by `=`. A key that was not written reads nothing when the tail is quote-free. |
| TagLines.ReadAttribute | Sources/M3UKit/PlaylistParser.swift:329-336 | On a written line, each of the eight attribute keys (`tvg-id` … `group-title`) reads back its declared value. |
| TagLines.TagOrderIrrelevant | Sources/M3UKit/PlaylistParser.swift:329-336 | Writing the same tags in another order does not change what any key reads. |
| TagLines.LookupDistinct | Sources/M3UKit/PlaylistParser.swift:268-300 | With distinct keys, every written tag is the one the lookup finds. |
| TagLines.QuoteFreeHasNoTag | Sources/M3UKit/PlaylistParser.swift:329-336 | A line without quotes has no attribute. |
| TagLines.TagCaptureAt | Sources/M3UKit/RegularExpression.swift:38-47 | The group at the first tag match is the search's result. |
| TagLines.TagMatches | Sources/M3UKit/PlaylistParser.swift:329-336 | A written tag ` key="value"` is a match of its key's regex, and the group there is the value. |
| TagLines.DwEnglishLookup | Tests/M3UKitTests/PlaylistParserTests.swift:155-170 | The tags of the DW English test line declare the expected eight values. |
| TagLines.DwEnglishWritten | Tests/M3UKitTests/PlaylistParserTests.swift:155-170 | The DW English test line is a written line for every attribute key. |
| LineScan.Absorb | Sources/M3UKit/PlaylistParser.swift:78-82 | A `#EXTINF:` line replaces the pending metadata line and keeps the pending URL. A line that is not a metadata line and that `URL(string:)` accepts replaces the pending URL and keeps the metadata. Any other line changes neither. |
| LineScan.Run | Sources/M3UKit/PlaylistParser.swift:72-98 | The scan only appends: the entries it starts with are kept, in order, at the front of what it delivers. |
| LineScan.Pairing | Sources/M3UKit/PlaylistParser.swift:72-98 | The reference pairing: each pair closes the shortest window that holds both a metadata line and a URL line, and takes the last of each in it. No complete window is left over. |
| LineScan.PairingUnique | Sources/M3UKit/PlaylistParser.swift:72-98 | The pairing description has exactly one solution. |
| LineScan.PairUpIsPairing | Sources/M3UKit/PlaylistParser.swift:78-95 | The loop's two slots, cleared after each pair, produce exactly the reference pairing. |
| LineScan.PairingCount | Sources/M3UKit/PlaylistParser.swift:78-95 | There are never more pairs than metadata lines, nor more than URL lines. |
| LineScan.Assemble | Sources/M3UKit/PlaylistParser.swift:84-94 | The emitted entries are the built leading pairs, in order. With no failure, every pair was built. With a failure, the error is that of the first pair that failed. |
| LineScan.ScanAssembles | Sources/M3UKit/PlaylistParser.swift:72-98 | The line-by-line loop, with its stop flag, equals building the reference pairing in order and stopping at the first failure. |
| LineScan.RunStops | Sources/M3UKit/PlaylistParser.swift:91-94 | Once a pair fails, lines appended after it change nothing. |
| LineScan.Walk | Sources/M3UKit/PlaylistParser.swift:111-152 | The imperative loop hands over exactly the entries, and the error, of the scan. |
| PlaylistParser.ExtractRawString | Sources/M3UKit/PlaylistParser.swift:197-207 | A missing source, or one without the `#EXTM3U` prefix, is `invalidSource`. Otherwise the result is the text after that prefix. |
| PlaylistParser.IsInfoLine | Sources/M3UKit/PlaylistParser.swift:232-234 | A line is a metadata line exactly when it starts with `#EXTINF:`. |
| PlaylistParser.ExtractDuration | Sources/M3UKit/PlaylistParser.swift:236-244 | This fails exactly when no duration is found, with `missingDuration(line, rawString)`. Otherwise it gives the 64-bit duration. |
| PlaylistParser.ExtractName | Sources/M3UKit/PlaylistParser.swift:246-248 | The name is empty exactly when no comma comes before the last character. Otherwise it is the text after a comma, running to the end, with no comma before its own last character. |
| PlaylistParser.ExtractId | Sources/M3UKit/PlaylistParser.swift:250-252 | The id is dot-free. It is empty exactly when the last path component is all dots. Otherwise it is the first dot-delimited piece of that component. |
| PlaylistParser.ExtractIdExample | Tests/M3UKitTests/PlaylistParserTests.swift:141-146 | `…/123456.mp4` gives the id `123456`. |
| PlaylistParser.ParseMediaKind | Sources/M3UKit/PlaylistParser.swift:254-266 | The kind is `series` exactly when the absolute URL contains `/series/` once, with no second non-overlapping copy. It is `movie` exactly when that fails and `/movies/` occurs once in that sense, and `live` likewise with `/live/`. Otherwise it is `unknown`. |
| PlaylistParser.PathMarker | Sources/M3UKit/PlaylistParser.swift:254-266 | In `host/dir/id` where no part has a slash, a slash-enclosed marker occurs once exactly when it is `/dir/`. |
| PlaylistParser.NamedDirectory | Sources/M3UKit/PlaylistParser.swift:254-266 | In such a URL, `/w/` occurs once exactly when the directory is `w`. |
| PlaylistParser.OneSlashNoMarker | Sources/M3UKit/PlaylistParser.swift:254-266 | A URL `host/id` with one slash contains no slash-enclosed marker. |
| PlaylistParser.KindOfPath | Sources/M3UKit/PlaylistParser.swift:254-266 | The kind of `host/dir/id` is `series`, `movie` or `live` when the directory is `series`, `movies` or `live`, and `unknown` for any other directory. |
| PlaylistParser.KindWithoutDirectory | Sources/M3UKit/PlaylistParser.swift:254-266 | A URL `host/id` has kind `unknown`. |
| PlaylistParser.SeriesTwiceIsNotSeries | Sources/M3UKit/PlaylistParser.swift:256 | A URL with two non-overlapping copies of `/series/` is not a series, since the count is two. |
| PlaylistParser.SeriesUrlExample | Tests/M3UKitTests/PlaylistParserTests.swift:124 | `test.com/series/123456` is a series. |
| PlaylistParser.LiveUrlExample | Tests/M3UKitTests/PlaylistParserTests.swift:123 | `test.com/live/123456` is live. |
| PlaylistParser.MovieUrlExample | Tests/M3UKitTests/PlaylistParserTests.swift:122 | `test.com/movie/123456` is `unknown`, because the marker is `/movies/`. The test expects `movie`; see below. |
| PlaylistParser.BareUrlExample | Tests/M3UKitTests/PlaylistParserTests.swift:125 | `test.com/123456` is `unknown`. |
| PlaylistParser.ParseSeasonEpisode | Sources/M3UKit/PlaylistParser.swift:302-316 | There is no season/episode pair, and the text is unchanged, unless the regex matched. On a match the numbers are the two groups' values and the name loses the match exactly when `removeSeriesInfoFromText` is set. The pair is present exactly when the regex matched and both numbers fit 64 bits. |
| PlaylistParser.SeasonEpisodeRoundTrip | Sources/M3UKit/PlaylistParser.swift:302-316 | A title followed by ` S<season> E<episode>` reads back both numbers. The name is the bare title exactly when the removal option is on. |
| PlaylistParser.SeasonEpisodeFromCapture | Sources/M3UKit/PlaylistParser.swift:302-316 | When both groups convert, they are the season and episode. The removed range is exactly the match. |
| PlaylistParser.SeriesSuffixFound | Sources/M3UKit/PlaylistParser.swift:327 | For a title without ` S`, the leftmost season/episode match is the appended suffix. |
| PlaylistParser.ParseAttributes | Sources/M3UKit/PlaylistParser.swift:268-300 | The id is always set. A non-empty `tvg-id` wins. An absent or empty one falls back to the URL id when `extractIdFromURL` is on, and to the empty string otherwise. `tvg-name` goes through the season/episode step. Each other key is exactly its regex's leftmost capture. |
| PlaylistParser.ParseAttributesWrittenLine | Sources/M3UKit/PlaylistParser.swift:268-300 | On a written line, every attribute is its declared value, with the id fallback and the season/episode step as above. |
| PlaylistParser.ParseAttributesIgnoresTagOrder | Sources/M3UKit/PlaylistParser.swift:268-300 | Reordering distinct written tags does not change the attributes. |
| PlaylistParser.ParseMetadata | Sources/M3UKit/PlaylistParser.swift:225-230 | This fails exactly when the duration does, with that error. Otherwise it gives the duration, the attributes, and the comma name after the season/episode step. |
| PlaylistParser.NameRoundTrip | Tests/M3UKitTests/PlaylistParserTests.swift:134-139 | Any text, then a comma, then a non-empty name with no comma before its last character reads back that name. A name with a comma before its last character reads back only its part after the last such comma. |
| PlaylistParser.NameKeepsOnlyText | Sources/M3UKit/PlaylistParser.swift:268-280 | Without a `tvg-name` tag the entry has a name but no season or episode. |
| PlaylistParser.MakeMedia | Sources/M3UKit/PlaylistParser.swift:84-94 | A pair builds exactly when its metadata has a duration. The entry keeps the URL and takes the URL's kind. Its attributes are those parsed from the metadata line, and its name is the extracted name after season/episode handling. |
| PlaylistParser.Parse | Sources/M3UKit/PlaylistParser.swift:62-105 | A bad source is `invalidSource`. Any other error is a `missingDuration`. |
| PlaylistParser.Walk | Sources/M3UKit/PlaylistParser.swift:111-152 | The handler sees exactly the entries `parse` returns, and the error `parse` throws. These are the reference pairing built in order. |
| PlaylistParser.ParseIsAssembled | Sources/M3UKit/PlaylistParser.swift:62-105 | `parse` is the reference pairing of the source's lines, built in order. |
| PlaylistParser.ParseFollowsPairing | Sources/M3UKit/PlaylistParser.swift:62-105 | The parse succeeds exactly when every pair's metadata has a duration. It then yields one entry per pair, in order. |
| PlaylistParser.ParseFailureIsFirstBadPair | Sources/M3UKit/PlaylistParser.swift:84-94 | A failed parse reports the line number and text of the first pair without a duration. |
| PlaylistParser.ParseCountBound | Sources/M3UKit/PlaylistParser.swift:62-105 | A playlist has no more entries than metadata lines, and no more than URL lines. |
| PlaylistParser.ParseIgnoresLinesAfterFailure | Sources/M3UKit/PlaylistParser.swift:91-94 | Lines appended after a failing pair do not change the result. |
| MediaKindParser.Parse | Sources/M3UKit/Parsers/MediaKindParser.swift:27-43 | A kind other than `unknown` has its marker once, with no second non-overlapping copy. No kind tested before it has that. |
| MediaKindParser.ParseIsDetermined | Sources/M3UKit/Parsers/MediaKindParser.swift:27-39 | Those two conditions single out the result. |
| MediaAttributesParser.Parse | Sources/M3UKit/Parsers/MediaAttributesParser.swift:27-67 | Each key is its regex's leftmost capture, with no id fallback. A name is present exactly when `tvg-name` is. Its season/episode come from the supplied parser. |
| MediaAttributesParser.ParseWrittenLine | Sources/M3UKit/Parsers/MediaAttributesParser.swift:27-57 | On a written line every attribute is its declared value. |
| MediaAttributesParser.DwEnglishExample | Tests/M3UKitTests/MediaAttributesTests.swift:65-80 | The DW English line gives the eight expected values. |
| ChannelMetadataParser.IsInfoLine | Sources/M3UKit/Parsers/ChannelMetadataParser.swift:45-47 | The line's first eight characters are `#EXTINF:`. |
| ChannelMetadataParser.ExtractDuration | Sources/M3UKit/Parsers/ChannelMetadataParser.swift:49-57 | This succeeds exactly when a duration is found, and otherwise fails with `missingDuration(line, rawString)`. |
| ChannelMetadataParser.ExtractName | Sources/M3UKit/Parsers/ChannelMetadataParser.swift:59-61 | The same `.*,(.+?)$` name: empty exactly when no comma comes before the last character, otherwise the comma-free tail after the last such comma. |
| ChannelMetadataParser.Parse | Sources/M3UKit/Parsers/ChannelMetadataParser.swift:38-43 | The duration comes first; when it fails nothing else is produced. Otherwise the result holds the channel attributes and the comma name. |
| ChannelAttributesParser.Parse | Sources/M3UKit/ChannelAttributes/ChannelAttributesParser.swift:25-61 | Each of the eight keys is exactly its regex's leftmost capture. |
| ChannelAttributesParser.ParseWrittenLine | Sources/M3UKit/ChannelAttributes/ChannelAttributesParser.swift:25-52 | Parsing a written line gives exactly the declared attributes. |
| ChannelAttributesParser.ParseIgnoresTagOrder | Sources/M3UKit/ChannelAttributes/ChannelAttributesParser.swift:25-52 | The order of distinct tags does not matter. |
| ChannelAttributesParser.DwEnglishExample | Tests/M3UKitTests/ChannelAttributesTests.swift:59-74 | The DW English line gives the eight expected values. |
| ChannelParser.ExtractDuration | Sources/M3UKit/Parsers/ChannelParser.swift:45-53 | This succeeds exactly when a duration is found, and otherwise fails with `invalidChannel`. |
| ChannelParser.ExtractName | Sources/M3UKit/Parsers/ChannelParser.swift:55-57 | The same `.*,(.+?)$` name: empty exactly when no comma comes before the last character, otherwise the comma-free tail after the last such comma. |
| ChannelParser.Parse | Sources/M3UKit/Parsers/ChannelParser.swift:31-43 | The only failure is a missing duration. The URL is kept, and the attributes and name come from the metadata line. |
| ChannelParser.NameExamples | Tests/M3UKitTests/ChannelTests.swift:47-56 | `invalid` has no name. `,valid` is named `valid`. |
| ChannelParser.DurationExample | Tests/M3UKitTests/ChannelTests.swift:47-50 | `invalid` has no duration. |
| DecomposedPlaylistParser.ExtractRawString | Sources/M3UKit/Parsers/PlaylistParser.swift:168-178 | This fails exactly on a missing or unmarked source, and otherwise strips the seven-character marker. |
| DecomposedPlaylistParser.MakeChannel | Sources/M3UKit/Parsers/PlaylistParser.swift:53-73 | A pair builds exactly when it has a duration. A failure carries the metadata parser's `missingDuration`. The entry's attributes are those the attributes parser reads from the metadata line, its name is the metadata's name (empty when there is none), and it keeps the URL. |
| DecomposedPlaylistParser.Parse | Sources/M3UKit/Parsers/PlaylistParser.swift:42-80 | A bad source is `invalidSource`. Any other error comes from the metadata parser. |
| DecomposedPlaylistParser.Walk | Sources/M3UKit/Parsers/PlaylistParser.swift:86-122 | The handler sees exactly the channels, and the error, of `parse`. These are the reference pairing built in order. |
| DecomposedPlaylistParser.ParseFollowsPairing | Sources/M3UKit/Parsers/PlaylistParser.swift:42-80 | The parse succeeds exactly when every pair has a duration, giving one channel per pair. Otherwise it reports the first bad pair. |
| DecomposedPlaylistParser.ParseIgnoresLinesAfterFailure | Sources/M3UKit/Parsers/PlaylistParser.swift:53-73 | Lines appended after a failing pair do not change the result. |
| LegacyPlaylistParser.Parse | Sources/M3UKit/Playlist/PlaylistParser.swift:38-73 | A missing or unmarked source is `invalidSource`. A source that starts with `#EXTM3U` fails only with a channel-parser error. |
| LegacyPlaylistParser.MakeChannel | Sources/M3UKit/Playlist/PlaylistParser.swift:56-62 | A remembered line and a URL line build a channel exactly when the line has a duration. Otherwise the error is the channel parser's `invalidChannel`. The channel has the line's duration, attributes and comma name, and the URL. |
| LegacyPlaylistParser.Run | Sources/M3UKit/Playlist/PlaylistParser.swift:53-66 | The enumeration only appends, and adds at most one channel per remaining line. The only error that stops it is the channel parser's `invalidChannel`. |
| LegacyPlaylistParser.LastNonUrlIsLast | Sources/M3UKit/Playlist/PlaylistParser.swift:53-66 | The remembered metadata is unset exactly when every line so far is a URL. Otherwise it is a non-URL line followed only by URL lines. |
| LegacyPlaylistParser.LegacyPairsSound | Sources/M3UKit/Playlist/PlaylistParser.swift:53-66 | Every pair is a URL line with a remembered metadata line, and takes that URL and the last non-URL line before it. |
| LegacyPlaylistParser.LegacyPairsComplete | Sources/M3UKit/Playlist/PlaylistParser.swift:53-66 | Every URL line that has a remembered metadata line makes a pair. |
| LegacyPlaylistParser.LegacyPairsOrdered | Sources/M3UKit/Playlist/PlaylistParser.swift:53-66 | Pairs come in line order. |
| LegacyPlaylistParser.LegacyRunAssembles | Sources/M3UKit/Playlist/PlaylistParser.swift:53-70 | The enumeration, with its stop flag, equals building the legacy pairs in order and stopping at the first failure. |
| LegacyPlaylistParser.EnumerateLines | Sources/M3UKit/Playlist/PlaylistParser.swift:49-66 | The imperative loop ends as the line-by-line reading does. |
| LegacyPlaylistParser.Enumerate | Sources/M3UKit/Playlist/PlaylistParser.swift:38-73 | The loop's channels and error are those of `parse`, and are the legacy pairs built in order. |
| LegacyPlaylistParser.ParseFollowsPairing | Sources/M3UKit/Playlist/PlaylistParser.swift:38-73 | The parse succeeds exactly when every pair has a duration, giving one channel per pair with that pair's URL. A failure is always `invalidChannel`. |
| LegacyPlaylistParser.ConsecutiveUrlsShareMetadata | Sources/M3UKit/Playlist/PlaylistParser.swift:53-66 | Two URL lines in a row give two channels with the same duration, attributes and name. |
| LegacyPlaylistParser.LeadingUrlsSkipped | Sources/M3UKit/Playlist/PlaylistParser.swift:55 | URL lines before the first non-URL line make no channel. |
| LegacyPlaylistParser.ParseCount | Sources/M3UKit/Playlist/PlaylistParser.swift:53-66 | A successful parse has as many channels as URL lines after the first non-URL line. |
| LegacyPlaylistParser.ParseIgnoresLinesAfterFailure | Sources/M3UKit/Playlist/PlaylistParser.swift:59-62 | Lines appended after a failing channel do not change the result. |
| LegacyPlaylistParser.FailureIsFinal | Sources/M3UKit/Playlist/PlaylistParser.swift:59-62 | Once building stops with an error, the rest of the text changes nothing. |
| Revisions.KindParsersAgree | Sources/M3UKit/Parsers/MediaKindParser.swift:27-39 | The decomposed kind parser decides exactly as the canonical `parseMediaKind`. |
| Revisions.PairBuildsAlike | Sources/M3UKit/Parsers/PlaylistParser.swift:53-73 | The canonical and decomposed builders succeed on the same pairs. They agree on the duration, the URL, the non-id/name attributes and, without the removal option, the name. They fail with the same line and text. |
| Revisions.AssembledAlike | Sources/M3UKit/PlaylistParser.swift:84-94 | Building the same pairs in both revisions gives entries that agree one for one, and the same stopping error. |
| Revisions.CanonicalAndDecomposedAgree | Sources/M3UKit/Parsers/PlaylistParser.swift:42-80 | The two revisions accept and reject the same sources, give agreeing entries one for one, and report the same missing duration. |
| Revisions.LegacyReusesMetadata | Sources/M3UKit/Playlist/PlaylistParser.swift:53-66 | In the oldest revision, one metadata line followed by two URLs gives two channels built from that metadata. |
| Revisions.DecomposedClearsMetadata | Sources/M3UKit/Parsers/PlaylistParser.swift:53-73 | In the decomposed revision, a metadata line followed by two URLs, as the lines after the `#EXTM3U` marker, gives one channel with the first URL, because the slots are cleared after each pair. |

## Left out

- The asynchronous `parse(_:processingQueue:callbackQueue:completion:)` and `walk` overloads, and the `[weak self]` guard. They only move the same synchronous work onto dispatch queues, or stop when the parser has been released.
- `PlaylistSource.rawString` (file, URL or string reading) is the `Option<string>` input. The model does not read files or the network.
- Foundation's `URL(string:)`, `absoluteString`, `lastPathComponent` and `String.enumerateLines` are the `Platform` parameter, unconstrained. URL percent-encoding and normalisation are therefore not modelled.
- The regex `.` is modelled as any character. The model does not treat line terminators inside a single line specially, because the scan only hands over lines split by `enumerateLines`.
- `\d` is modelled as ASCII `0`–`9` only. `NSRegularExpression` also accepts other Unicode decimal digits, and `Int(String)` rejects them. Such a capture would therefore fail to convert.
- `errorDescription` (the human-readable message of each error) is left out; only the error cases and their payloads are modelled.
- `Codable` conformances, `Equatable`/`Hashable` and the public initialisers of the model types are left out; they hold no parsing logic.
- `SeasonEpisodeParser` is not part of this model. The decomposed attribute parser takes it as a parameter.
- The initialiser `Playlist.Channel(metadata:url:)` that the decomposed loop calls is not part of this model. `DecomposedPlaylistParser.MakeChannel` assumes that it copies the fields.
- Errors of the inner parsers are carried as values (`MetadataFailure`, `ChannelFailure`), not rethrown. The outer `parse` surfaces the inner error unchanged, as the source's `throw error` does.
- `LegacyPlaylistParser.EnumerateLines` returns at the failing line instead of setting a `stop` flag. The effect is the same, because `enumerateLines` stops calling back once `stop` is set.
- `PlaylistParser.ExtractId` follows Swift's `split(separator:)`, which drops empty pieces. For a component such as `.hidden` the id is `hidden`, not the empty prefix before the first dot.
- Some test expectations disagree with the code, and the model follows the code:
  - `/movie/` is expected to be a movie, but the regex is `/movies/`.
  - `S01E09`, `s01e09` and `s01 e09` are expected to give season 1, episode 9, but the regex requires ` S<digits> E<digits>`.
- `TagLines.TagsRead` states the read-back only for lines made of quote-free text, then tags, then a tail. The conditions are these:
  - keys and values hold no quote;
  - no tag other than the searched one has a key ending in the searched key, or a value ending in the searched key followed by `=`;
  - the tail does not start with a quote;
  - "a key that was not written reads nothing" also needs a quote-free tail.

  Values may end in `=`, so base64 padding such as `tvg-logo="…=="` is covered. When one of these conditions fails, the regex can find `key="` inside another tag and read that instead. The source does the same. For arbitrary lines the parsers' own contracts describe the leftmost-match result.
- `TagLines.ReadAttribute` and `TagLines.TagOrderIrrelevant` hold under the conditions of `TagLines.TagsRead`. `WrittenLine` requires them for each of the eight attribute keys.
- `PlaylistParser.ParseAttributesWrittenLine` and `PlaylistParser.ParseAttributesIgnoresTagOrder` hold only for written lines, under the conditions of `TagLines.TagsRead`.
- `MediaAttributesParser.ParseWrittenLine` holds only for written lines, under the conditions of `TagLines.TagsRead`.
- `ChannelAttributesParser.ParseWrittenLine` and `ChannelAttributesParser.ParseIgnoresTagOrder` hold only for written lines, under the conditions of `TagLines.TagsRead`.
- Strings are sequences of Unicode scalars, and every comparison is scalar by scalar. Swift compares `Character`s, which are extended grapheme clusters, in `starts(with:)` (the `#EXTM3U` and `#EXTINF:` prefix tests) and in `split(separator: ".")` (the media id). Grapheme-cluster comparison is not modelled. The results differ when a combining mark follows a compared character. For example, in `#EXTINF:` followed by U+0301 the eighth `Character` is `:` with the accent. Swift then does not treat the line as a metadata line, while the model does. Likewise, a path component `a.` + U+0301 + `b` has no `.` `Character`, so Swift's id is the whole component, while the model's is `a`.
- The `Options` doc comment says the options default to all. The initialiser's default is the empty set; the model takes `Options` as an explicit argument.
