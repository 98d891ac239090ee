/**
 * The oldest revision's `PlaylistParser`: every line `URL(string:)` accepts is a
 * channel's URL, paired with the most recent line it rejected. The metadata is not
 * cleared after a channel, so URL lines in a row share it; URL lines before any
 * other line are skipped. The `#EXTM3U` line is checked but stays in the enumeration.
 */
module LegacyPlaylistParser {
  import opened Wrappers
  import opened Text
  import opened Model
  import LineScan
  import ChannelParser
  import ChannelAttributesParser
  import opened Patterns

  /** What `parse` can throw: its own `invalidSource`, or the channel parser's error passed on. */
  datatype ParsingError = InvalidSource | ChannelFailure(cause: ChannelParser.ParsingError)

  /** The channel for a metadata line and a URL line; the line number plays no part. */
  function MakeChannel(metadataLine: string, urlLine: string): (r: Result<Channel, ParsingError>)
    ensures r.Failure? <==> DurationValue(metadataLine).None?
    ensures r.Failure? ==> r.error == ChannelFailure(ChannelParser.InvalidChannel)
    ensures r.Success? ==> && Some(r.value.duration) == DurationValue(metadataLine)
                           && r.value.attributes == ChannelAttributesParser.Parse(metadataLine)
                           && r.value.name == NameOrEmpty(metadataLine)
                           && r.value.url == Url(urlLine)
  {
    match ChannelParser.Parse(metadataLine, Url(urlLine))
    case Failure(e) => Failure(ChannelFailure(e))
    case Success(c) => Success(c)
  }

  function Builder(): (nat, string, string) -> Result<Channel, ParsingError> {
    (line: nat, metadataLine: string, urlLine: string) => MakeChannel(metadataLine, urlLine)
  }

  /** The enumeration from line `i`, with `last` the most recent non-URL line and `acc` the channels so far. */
  function Run(lines: seq<string>, isUrl: string -> bool, i: nat, last: Option<string>, acc: seq<Channel>)
    : (r: LineScan.Outcome<Channel, ParsingError>)
    ensures acc <= r.emitted
    ensures i <= |lines| ==> |r.emitted| <= |acc| + (|lines| - i)
    ensures r.failure.Some? ==> r.failure.value == ChannelFailure(ChannelParser.InvalidChannel)
    decreases |lines| - i
  {
    if i >= |lines| then LineScan.Outcome(acc, None)
    else if isUrl(lines[i]) then
      if last.None? then Run(lines, isUrl, i + 1, last, acc)
      else match MakeChannel(last.value, lines[i])
        case Failure(e) => LineScan.Outcome(acc, Some(e))
        case Success(c) => Run(lines, isUrl, i + 1, last, acc + [c])
    else Run(lines, isUrl, i + 1, Some(lines[i]), acc)
  }

  /** A missing source or marker is `invalidSource`; otherwise every channel, or the first channel error. */
  function Parse(plat: Platform, input: Option<string>): (r: Result<ChannelPlaylist, ParsingError>)
    ensures input.None? || !StartsWith(input.value, Header) ==> r == Failure(InvalidSource)
    ensures input.Some? && StartsWith(input.value, Header) && r.Failure? ==> r.error.ChannelFailure?
  {
    if input.None? || !StartsWith(input.value, Header) then Failure(InvalidSource)
    else
      var o := Run(plat.lines(input.value), plat.isUrl, 0, None, []);
      LegacyRunAssembles(plat.lines(input.value), plat.isUrl);
      if o.failure.None? then Success(ChannelPlaylist(o.emitted)) else Failure(o.failure.value)
  }

  // ---------------------------------------------------------------------------
  // The pairing rule, stated on its own.

  /** The most recent line of `w` that is not a URL. */
  function LastNonUrl(isUrl: string -> bool, w: seq<string>): Option<string> {
    if w == [] then None
    else if !isUrl(w[|w| - 1]) then Some(w[|w| - 1])
    else LastNonUrl(isUrl, w[..|w| - 1])
  }

  /**
   * `LastNonUrl` is unset exactly when every line is a URL, and otherwise is a
   * non-URL line with only URL lines after it.
   */
  lemma {:induction false} LastNonUrlIsLast(isUrl: string -> bool, w: seq<string>)
    ensures var r := LastNonUrl(isUrl, w);
            && (r.None? <==> forall j :: 0 <= j < |w| ==> isUrl(w[j]))
            && (r.Some? ==> exists j :: && 0 <= j < |w| && w[j] == r.value && !isUrl(w[j])
                                        && forall j' :: j < j' < |w| ==> isUrl(w[j']))
  {
    if w != [] && isUrl(w[|w| - 1]) {
      var v := w[..|w| - 1];
      LastNonUrlIsLast(isUrl, v);
      assert forall j :: 0 <= j < |v| ==> v[j] == w[j];
      if LastNonUrl(isUrl, v).Some? {
        var j :| && 0 <= j < |v| && v[j] == LastNonUrl(isUrl, v).value && !isUrl(v[j])
                 && forall j' :: j < j' < |v| ==> isUrl(v[j']);
        assert forall j' :: j < j' < |w| ==> isUrl(w[j']);
      }
    }
  }

  /** One more line: a URL line keeps the last metadata line, any other line becomes it. */
  lemma LastNonUrlStep(isUrl: string -> bool, lines: seq<string>, i: nat)
    requires i < |lines|
    ensures LastNonUrl(isUrl, lines[..i + 1]) == if isUrl(lines[i]) then LastNonUrl(isUrl, lines[..i]) else Some(lines[i])
  {
    assert lines[..i + 1][..i] == lines[..i];
    assert lines[..i + 1][i] == lines[i];
  }

  /** Line `i` completes a channel: it is a URL and some earlier line is not. */
  predicate Completes(lines: seq<string>, isUrl: string -> bool, i: nat)
    requires i < |lines|
  {
    isUrl(lines[i]) && LastNonUrl(isUrl, lines[..i]).Some?
  }

  /** The pairs among the first `n` lines: one per completing line, in line order. */
  function LegacyPairs(lines: seq<string>, isUrl: string -> bool, n: nat): seq<LineScan.Pair>
    requires n <= |lines|
  {
    if n == 0 then []
    else
      var i := n - 1;
      if Completes(lines, isUrl, i) then LegacyPairs(lines, isUrl, i) + [LineScan.Pair(i, LastNonUrl(isUrl, lines[..i]).value, lines[i])]
      else LegacyPairs(lines, isUrl, i)
  }

  /** Building the pairs of one more line. */
  lemma LegacyPairsStep(lines: seq<string>, isUrl: string -> bool, n: nat)
    requires n < |lines|
    ensures Completes(lines, isUrl, n) ==>
              LegacyPairs(lines, isUrl, n + 1)
              == LegacyPairs(lines, isUrl, n) + [LineScan.Pair(n, LastNonUrl(isUrl, lines[..n]).value, lines[n])]
    ensures !Completes(lines, isUrl, n) ==> LegacyPairs(lines, isUrl, n + 1) == LegacyPairs(lines, isUrl, n)
  {
  }

  /** Every pair is a completing line, its URL is that line, and its metadata the last non-URL line before it. */
  lemma {:induction false} LegacyPairsSound(lines: seq<string>, isUrl: string -> bool, n: nat)
    requires n <= |lines|
    ensures var r := LegacyPairs(lines, isUrl, n);
            forall k :: 0 <= k < |r| ==>
              && r[k].line < n && Completes(lines, isUrl, r[k].line)
              && r[k].url == lines[r[k].line]
              && Some(r[k].meta) == LastNonUrl(isUrl, lines[..r[k].line])
  {
    if n > 0 {
      LegacyPairsSound(lines, isUrl, n - 1);
      LegacyPairsStep(lines, isUrl, n - 1);
      var r := LegacyPairs(lines, isUrl, n);
      var rest := LegacyPairs(lines, isUrl, n - 1);
      forall k | 0 <= k < |r|
        ensures && r[k].line < n && Completes(lines, isUrl, r[k].line)
                && r[k].url == lines[r[k].line]
                && Some(r[k].meta) == LastNonUrl(isUrl, lines[..r[k].line])
      {
        if k < |rest| {
          assert r[k] == rest[k];
        }
      }
    }
  }

  /** The pairs are in strictly increasing line order. */
  lemma {:induction false} LegacyPairsOrdered(lines: seq<string>, isUrl: string -> bool, n: nat)
    requires n <= |lines|
    ensures var r := LegacyPairs(lines, isUrl, n);
            forall k, k' :: 0 <= k < k' < |r| ==> r[k].line < r[k'].line
  {
    if n > 0 {
      LegacyPairsOrdered(lines, isUrl, n - 1);
      LegacyPairsSound(lines, isUrl, n - 1);
      LegacyPairsStep(lines, isUrl, n - 1);
      var r := LegacyPairs(lines, isUrl, n);
      var rest := LegacyPairs(lines, isUrl, n - 1);
      forall k, k' | 0 <= k < k' < |r| ensures r[k].line < r[k'].line {
        assert r[k] == rest[k];
        if k' < |rest| {
          assert r[k'] == rest[k'];
        }
      }
    }
  }

  /** Every completing line has its pair. */
  lemma {:induction false} LegacyPairsComplete(lines: seq<string>, isUrl: string -> bool, n: nat)
    requires n <= |lines|
    ensures var r := LegacyPairs(lines, isUrl, n);
            forall i :: 0 <= i < n && Completes(lines, isUrl, i) ==> exists k :: 0 <= k < |r| && r[k].line == i
  {
    if n > 0 {
      LegacyPairsComplete(lines, isUrl, n - 1);
      LegacyPairsStep(lines, isUrl, n - 1);
      var r := LegacyPairs(lines, isUrl, n);
      var rest := LegacyPairs(lines, isUrl, n - 1);
      forall i | 0 <= i < n && Completes(lines, isUrl, i) ensures exists k :: 0 <= k < |r| && r[k].line == i {
        if i < n - 1 {
          var k :| 0 <= k < |rest| && rest[k].line == i;
          assert r[k] == rest[k];
        } else {
          assert r[|rest|].line == i;
        }
      }
    }
  }

  lemma {:induction false} LegacyPairsPrefix(lines: seq<string>, isUrl: string -> bool, n: nat, m: nat)
    requires n <= m <= |lines|
    ensures LegacyPairs(lines, isUrl, n) <= LegacyPairs(lines, isUrl, m)
    decreases m - n
  {
    if n < m {
      LegacyPairsPrefix(lines, isUrl, n, m - 1);
    }
  }

  // ---------------------------------------------------------------------------
  // The enumeration is the pairing followed by building.

  lemma {:induction false} AssembleSnoc<T, E>(build: (nat, string, string) -> Result<T, E>, ps: seq<LineScan.Pair>, p: LineScan.Pair)
    requires LineScan.Assemble(build, ps).failure.None?
    ensures var a := LineScan.Assemble(build, ps);
            LineScan.Assemble(build, ps + [p])
            == match LineScan.BuildPair(build, p)
               case Success(t) => LineScan.Outcome(a.emitted + [t], None)
               case Failure(e) => LineScan.Outcome(a.emitted, Some(e))
  {
    if ps == [] {
      assert ps + [p] == [p];
    } else {
      assert (ps + [p])[1..] == ps[1..] + [p];
      AssembleSnoc(build, ps[1..], p);
    }
  }

  lemma {:induction false} AssembleStops<T, E>(build: (nat, string, string) -> Result<T, E>, ps: seq<LineScan.Pair>, qs: seq<LineScan.Pair>)
    requires LineScan.Assemble(build, ps).failure.Some?
    ensures LineScan.Assemble(build, ps + qs) == LineScan.Assemble(build, ps)
  {
    assert (ps + qs)[0] == ps[0];
    if LineScan.BuildPair(build, ps[0]).Success? {
      assert (ps + qs)[1..] == ps[1..] + qs;
      AssembleStops(build, ps[1..], qs);
    }
  }

  lemma AssembleStopsAtPrefix<T, E>(build: (nat, string, string) -> Result<T, E>, done: seq<LineScan.Pair>, all: seq<LineScan.Pair>)
    requires done <= all
    requires LineScan.Assemble(build, done).failure.Some?
    ensures LineScan.Assemble(build, all) == LineScan.Assemble(build, done)
  {
    assert all == done + all[|done|..];
    AssembleStops(build, done, all[|done|..]);
  }

  /** A failure among the first `n` lines' pairs is the failure of the whole text. */
  lemma FailureIsFinal(lines: seq<string>, isUrl: string -> bool, n: nat)
    requires n <= |lines|
    requires LineScan.Assemble(Builder(), LegacyPairs(lines, isUrl, n)).failure.Some?
    ensures LineScan.Assemble(Builder(), LegacyPairs(lines, isUrl, |lines|))
            == LineScan.Assemble(Builder(), LegacyPairs(lines, isUrl, n))
  {
    LegacyPairsPrefix(lines, isUrl, n, |lines|);
    AssembleStopsAtPrefix(Builder(), LegacyPairs(lines, isUrl, n), LegacyPairs(lines, isUrl, |lines|));
  }

  /** One line of the enumeration, seen through the pairs built so far. */
  lemma RunStep(lines: seq<string>, isUrl: string -> bool, i: nat, acc: seq<Channel>)
    requires i < |lines|
    requires LineScan.Assemble(Builder(), LegacyPairs(lines, isUrl, i)) == LineScan.Outcome(acc, None)
    ensures var last := LastNonUrl(isUrl, lines[..i]);
            var next := LineScan.Assemble(Builder(), LegacyPairs(lines, isUrl, i + 1));
            && LastNonUrl(isUrl, lines[..i + 1]) == (if isUrl(lines[i]) then last else Some(lines[i]))
            && next == if isUrl(lines[i]) && last.Some? then
                         match MakeChannel(last.value, lines[i])
                         case Success(c) => LineScan.Outcome(acc + [c], None)
                         case Failure(e) => LineScan.Outcome(acc, Some(e))
                       else LineScan.Outcome(acc, None)
  {
    LastNonUrlStep(isUrl, lines, i);
    LegacyPairsStep(lines, isUrl, i);
    var last := LastNonUrl(isUrl, lines[..i]);
    if isUrl(lines[i]) && last.Some? {
      AssembleSnoc(Builder(), LegacyPairs(lines, isUrl, i), LineScan.Pair(i, last.value, lines[i]));
    }
  }

  /** From any point the enumeration reaches, it finishes as the pairs of the whole text, built in order. */
  lemma {:induction false} RunFrom(lines: seq<string>, isUrl: string -> bool, i: nat, acc: seq<Channel>)
    requires i <= |lines|
    requires LineScan.Assemble(Builder(), LegacyPairs(lines, isUrl, i)) == LineScan.Outcome(acc, None)
    ensures Run(lines, isUrl, i, LastNonUrl(isUrl, lines[..i]), acc)
            == LineScan.Assemble(Builder(), LegacyPairs(lines, isUrl, |lines|))
    decreases |lines| - i
  {
    if i == |lines| {
      assert lines[..i] == lines;
    } else {
      RunStep(lines, isUrl, i, acc);
      var last := LastNonUrl(isUrl, lines[..i]);
      if isUrl(lines[i]) && last.Some? {
        match MakeChannel(last.value, lines[i])
        case Failure(e) =>
          FailureIsFinal(lines, isUrl, i + 1);
        case Success(c) =>
          RunFrom(lines, isUrl, i + 1, acc + [c]);
      } else {
        RunFrom(lines, isUrl, i + 1, acc);
      }
    }
  }

  /** The whole enumeration. */
  lemma LegacyRunAssembles(lines: seq<string>, isUrl: string -> bool)
    ensures Run(lines, isUrl, 0, None, []) == LineScan.Assemble(Builder(), LegacyPairs(lines, isUrl, |lines|))
  {
    assert lines[..0] == [];
    RunFrom(lines, isUrl, 0, []);
  }

  /**
   * The enumeration as the source writes it: a loop over the lines that keeps the
   * last metadata line and stops at the first channel that cannot be built. It ends
   * as the line-by-line reading `Run` does.
   */
  method EnumerateLines(lines: seq<string>, isUrl: string -> bool) returns (channels: seq<Channel>, failure: Option<ParsingError>)
    ensures LineScan.Outcome(channels, failure) == Run(lines, isUrl, 0, None, [])
  {
    var lastMetadata: Option<string> := None;
    var i := 0;
    channels, failure := [], None;
    while i < |lines|
      invariant i <= |lines| && failure.None?
      invariant Run(lines, isUrl, i, lastMetadata, channels) == Run(lines, isUrl, 0, None, [])
    {
      var line := lines[i];
      if isUrl(line) {
        if lastMetadata.Some? {
          var built := MakeChannel(lastMetadata.value, line);
          if built.Failure? {
            return channels, Some(built.error);
          }
          channels := channels + [built.value];
        }
      } else {
        lastMetadata := Some(line);
      }
      i := i + 1;
    }
  }

  /** `parse` with its loop: the result of `Parse`, which is the pairs of the whole text built in order. */
  method Enumerate(plat: Platform, input: Option<string>) returns (channels: seq<Channel>, failure: Option<ParsingError>)
    ensures failure.None? <==> Parse(plat, input).Success?
    ensures failure.None? ==> Parse(plat, input) == Success(ChannelPlaylist(channels))
    ensures failure.Some? ==> Parse(plat, input) == Failure(failure.value)
    ensures input.Some? && StartsWith(input.value, Header) ==>
              var lines := plat.lines(input.value);
              LineScan.Outcome(channels, failure) == LineScan.Assemble(Builder(), LegacyPairs(lines, plat.isUrl, |lines|))
  {
    if input.None? || !StartsWith(input.value, Header) {
      return [], Some(InvalidSource);
    }
    channels, failure := EnumerateLines(plat.lines(input.value), plat.isUrl);
    LegacyRunAssembles(plat.lines(input.value), plat.isUrl);
  }

  // ---------------------------------------------------------------------------
  // Properties.

  function SourcePairs(plat: Platform, input: Option<string>): seq<LineScan.Pair>
    requires input.Some?
  {
    LegacyPairs(plat.lines(input.value), plat.isUrl, |plat.lines(input.value)|)
  }

  /** The batch result is the pairs of the whole text, built in order and stopped at the first failure. */
  lemma ParseIsAssembled(plat: Platform, input: Option<string>)
    requires input.Some? && StartsWith(input.value, Header)
    ensures var a := LineScan.Assemble(Builder(), SourcePairs(plat, input));
            Parse(plat, input) == if a.failure.None? then Success(ChannelPlaylist(a.emitted)) else Failure(a.failure.value)
  {
    LegacyRunAssembles(plat.lines(input.value), plat.isUrl);
  }

  /**
   * The batch result in terms of the pairing rule: it succeeds exactly when every
   * pair's metadata line declares a duration, and then holds one channel per pair, in
   * pair order, with that pair's URL.
   */
  lemma ParseFollowsPairing(plat: Platform, input: Option<string>)
    requires input.Some? && StartsWith(input.value, Header)
    ensures var pairs := SourcePairs(plat, input);
            Parse(plat, input).Success? <==> forall k :: 0 <= k < |pairs| ==> ChannelParser.ExtractDuration(pairs[k].meta).Success?
    ensures var pairs := SourcePairs(plat, input);
            var r := Parse(plat, input);
            r.Success? ==> |r.value.channels| == |pairs|
                           && forall k :: 0 <= k < |pairs| ==>
                                && ChannelParser.Parse(pairs[k].meta, Url(pairs[k].url)) == Success(r.value.channels[k])
                                && r.value.channels[k].url == Url(pairs[k].url)
    ensures Parse(plat, input).Failure? ==> Parse(plat, input) == Failure(ChannelFailure(ChannelParser.InvalidChannel))
  {
    var pairs := SourcePairs(plat, input);
    var a := LineScan.Assemble(Builder(), pairs);
    ParseIsAssembled(plat, input);
    if a.failure.Some? {
      assert LineScan.BuildPair(Builder(), pairs[|a.emitted|]) == Failure(a.failure.value);
    } else {
      forall k | 0 <= k < |pairs|
        ensures ChannelParser.Parse(pairs[k].meta, Url(pairs[k].url)) == Success(a.emitted[k])
      {
        assert LineScan.BuildPair(Builder(), pairs[k]) == Success(a.emitted[k]);
      }
    }
  }

  /**
   * URL lines in a row after one metadata line make channels that differ only in
   * their URL: the metadata is reused, not consumed.
   */
  lemma ConsecutiveUrlsShareMetadata(plat: Platform, input: Option<string>, k: nat)
    requires input.Some? && StartsWith(input.value, Header) && Parse(plat, input).Success?
    requires k + 1 < |SourcePairs(plat, input)|
    requires SourcePairs(plat, input)[k + 1].line == SourcePairs(plat, input)[k].line + 1
    ensures var cs := Parse(plat, input).value.channels;
            && |cs| == |SourcePairs(plat, input)|
            && cs[k].duration == cs[k + 1].duration && cs[k].attributes == cs[k + 1].attributes
            && cs[k].name == cs[k + 1].name
  {
    var lines := plat.lines(input.value);
    var pairs := SourcePairs(plat, input);
    assert pairs == LegacyPairs(lines, plat.isUrl, |lines|);
    var i := pairs[k].line;
    LegacyPairsSound(lines, plat.isUrl, |lines|);
    assert i + 1 < |lines| && Completes(lines, plat.isUrl, i);
    LastNonUrlStep(plat.isUrl, lines, i);
    assert pairs[k + 1].meta == pairs[k].meta;
    var a := LineScan.Assemble(Builder(), pairs);
    ParseIsAssembled(plat, input);
    assert LineScan.BuildPair(Builder(), pairs[k]) == Success(a.emitted[k]);
    assert LineScan.BuildPair(Builder(), pairs[k + 1]) == Success(a.emitted[k + 1]);
  }

  /** A URL line before every metadata line makes no channel: leading URLs are skipped. */
  lemma LeadingUrlsSkipped(lines: seq<string>, isUrl: string -> bool, i: nat)
    requires i < |lines| && forall j :: 0 <= j <= i ==> isUrl(lines[j])
    ensures forall k :: 0 <= k < |LegacyPairs(lines, isUrl, |lines|)| ==> LegacyPairs(lines, isUrl, |lines|)[k].line != i
  {
    assert forall j :: 0 <= j < i ==> lines[..i][j] == lines[j];
    LastNonUrlIsLast(isUrl, lines[..i]);
    LegacyPairsSound(lines, isUrl, |lines|);
  }

  /** The number of URL lines in `w`. */
  function CountUrls(isUrl: string -> bool, w: seq<string>): nat {
    if w == [] then 0 else CountUrls(isUrl, w[..|w| - 1]) + (if isUrl(w[|w| - 1]) then 1 else 0)
  }

  /**
   * Once the first non-URL line (at `f`) has been seen, every later URL line makes a
   * pair: there are as many pairs as URL lines after it.
   */
  lemma {:induction false} LegacyPairsCount(lines: seq<string>, isUrl: string -> bool, f: nat, n: nat)
    requires f < n <= |lines|
    requires !isUrl(lines[f]) && forall j :: 0 <= j < f ==> isUrl(lines[j])
    ensures |LegacyPairs(lines, isUrl, n)| == CountUrls(isUrl, lines[f + 1..n])
  {
    LegacyPairsStep(lines, isUrl, n - 1);
    var w := lines[f + 1..n];
    if n == f + 1 {
      assert w == [];
      LegacyPairsNone(lines, isUrl, f);
      LastNonUrlStep(isUrl, lines, f);
    } else {
      LegacyPairsCount(lines, isUrl, f, n - 1);
      assert w[..|w| - 1] == lines[f + 1..n - 1];
      assert w[|w| - 1] == lines[n - 1];
      LastNonUrlSeen(lines, isUrl, f, n - 1);
    }
  }

  /** Before any non-URL line there are no pairs. */
  lemma {:induction false} LegacyPairsNone(lines: seq<string>, isUrl: string -> bool, n: nat)
    requires n <= |lines| && forall j :: 0 <= j < n ==> isUrl(lines[j])
    ensures LegacyPairs(lines, isUrl, n) == []
  {
    if n > 0 {
      LegacyPairsNone(lines, isUrl, n - 1);
      LegacyPairsStep(lines, isUrl, n - 1);
      LastNonUrlIsLast(isUrl, lines[..n - 1]);
      assert forall j :: 0 <= j < n - 1 ==> lines[..n - 1][j] == lines[j];
    }
  }

  /** After a non-URL line at `f`, there is always a last metadata line. */
  lemma LastNonUrlSeen(lines: seq<string>, isUrl: string -> bool, f: nat, i: nat)
    requires f < i <= |lines| && !isUrl(lines[f])
    ensures LastNonUrl(isUrl, lines[..i]).Some?
  {
    LastNonUrlIsLast(isUrl, lines[..i]);
    assert lines[..i][f] == lines[f];
  }

  /**
   * On success the channel count is the number of URL lines after the first non-URL
   * line (the `#EXTM3U` line itself, unless `URL(string:)` accepts it).
   */
  lemma ParseCount(plat: Platform, input: Option<string>, f: nat)
    requires input.Some? && StartsWith(input.value, Header) && Parse(plat, input).Success?
    requires var lines := plat.lines(input.value);
             f < |lines| && !plat.isUrl(lines[f]) && forall j :: 0 <= j < f ==> plat.isUrl(lines[j])
    ensures var lines := plat.lines(input.value);
            |Parse(plat, input).value.channels| == CountUrls(plat.isUrl, lines[f + 1..])
  {
    var lines := plat.lines(input.value);
    ParseFollowsPairing(plat, input);
    assert SourcePairs(plat, input) == LegacyPairs(lines, plat.isUrl, |lines|);
    LegacyPairsCount(lines, plat.isUrl, f, |lines|);
    assert lines[f + 1..|lines|] == lines[f + 1..];
  }

  /** Fail-fast: lines after the one that failed cannot change the outcome. */
  lemma ParseIgnoresLinesAfterFailure(plat: Platform, input: Option<string>, longer: Option<string>, extra: seq<string>)
    requires input.Some? && StartsWith(input.value, Header) && longer.Some? && StartsWith(longer.value, Header)
    requires plat.lines(longer.value) == plat.lines(input.value) + extra
    requires Parse(plat, input).Failure?
    ensures Parse(plat, longer) == Parse(plat, input)
  {
    var lines := plat.lines(input.value);
    var all := plat.lines(longer.value);
    ParseIsAssembled(plat, input);
    ParseIsAssembled(plat, longer);
    LegacyPairsExtend(lines, extra, plat.isUrl, |lines|);
    FailureIsFinal(all, plat.isUrl, |lines|);
  }

  /** Appending lines does not change the pairs among the lines already there. */
  lemma {:induction false} LegacyPairsExtend(lines: seq<string>, extra: seq<string>, isUrl: string -> bool, n: nat)
    requires n <= |lines|
    ensures LegacyPairs(lines + extra, isUrl, n) == LegacyPairs(lines, isUrl, n)
  {
    if n > 0 {
      LegacyPairsExtend(lines, extra, isUrl, n - 1);
      assert (lines + extra)[..n - 1] == lines[..n - 1];
      assert (lines + extra)[n - 1] == lines[n - 1];
    }
  }
}
