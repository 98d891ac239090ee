/**
 * The scan loop shared by the canonical engine and the decomposed revision: both
 * walk the lines keeping a last-wins metadata slot and a last-wins URL slot, and
 * build an entry the moment both are filled. `build` is the revision's metadata
 * parser; a failure stops the scan.
 */
module LineScan {
  import opened Wrappers
  import opened Text
  import opened Patterns

  /** `isInfoLine`: the line starts with `#EXTINF:`. */
  predicate IsInfoLine(line: string) {
    StartsWith(line, InfoPrefix)
  }

  /** A line that fills the URL slot: not a metadata line, and accepted by `URL(string:)`. */
  predicate IsUrlLine(isUrl: string -> bool, line: string) {
    !IsInfoLine(line) && isUrl(line)
  }

  /** The pending metadata line and pending URL line. */
  datatype Pending = Pending(meta: Option<string>, url: Option<string>)

  const Idle: Pending := Pending(None, None)

  /** A metadata line and a URL line that completed each other on line `line`. */
  datatype Pair = Pair(line: nat, meta: string, url: string)

  /** What a scan delivered, in order, and the error that stopped it, if any. */
  datatype Outcome<T, E> = Outcome(emitted: seq<T>, failure: Option<E>)

  /** One line's effect on the slots. */
  function Absorb(isUrl: string -> bool, p: Pending, line: string): (r: Pending)
    ensures IsInfoLine(line) ==> r.meta == Some(line) && r.url == p.url
    ensures IsUrlLine(isUrl, line) ==> r.url == Some(line) && r.meta == p.meta
    ensures !IsInfoLine(line) && !IsUrlLine(isUrl, line) ==> r == p
  {
    if IsInfoLine(line) then p.(meta := Some(line))
    else if isUrl(line) then p.(url := Some(line))
    else p
  }

  /** The scan from line `i` on, with slots `p` and entries `acc` so far. */
  function Run<T, E>(lines: seq<string>, isUrl: string -> bool, build: (nat, string, string) -> Result<T, E>,
                     i: nat, p: Pending, acc: seq<T>): (r: Outcome<T, E>)
    requires i <= |lines|
    ensures |acc| <= |r.emitted| && forall k :: 0 <= k < |acc| ==> r.emitted[k] == acc[k]
    decreases |lines| - i
  {
    if i == |lines| then Outcome(acc, None)
    else
      var q := Absorb(isUrl, p, lines[i]);
      if q.meta.Some? && q.url.Some? then
        match build(i, q.meta.value, q.url.value)
        case Failure(e) => Outcome(acc, Some(e))
        case Success(t) => Run(lines, isUrl, build, i + 1, Idle, acc + [t])
      else Run(lines, isUrl, build, i + 1, q, acc)
  }

  function Scan<T, E>(lines: seq<string>, isUrl: string -> bool, build: (nat, string, string) -> Result<T, E>): Outcome<T, E> {
    Run(lines, isUrl, build, 0, Idle, [])
  }

  /** The same loop with building left out: only which lines pair up. */
  function PairUp(lines: seq<string>, isUrl: string -> bool, i: nat, p: Pending): seq<Pair>
    requires i <= |lines|
    decreases |lines| - i
  {
    if i == |lines| then []
    else
      var q := Absorb(isUrl, p, lines[i]);
      if q.meta.Some? && q.url.Some? then [Pair(i, q.meta.value, q.url.value)] + PairUp(lines, isUrl, i + 1, Idle)
      else PairUp(lines, isUrl, i + 1, q)
  }

  // ---------------------------------------------------------------------------
  // The pairing rule, stated without a state machine.

  /** The last metadata line of a window of lines. */
  function LastInfo(w: seq<string>): Option<string> {
    if |w| == 0 then None
    else if IsInfoLine(w[|w| - 1]) then Some(w[|w| - 1])
    else LastInfo(w[..|w| - 1])
  }

  /** The last URL line of a window of lines. */
  function LastUrl(isUrl: string -> bool, w: seq<string>): Option<string> {
    if |w| == 0 then None
    else if IsUrlLine(isUrl, w[|w| - 1]) then Some(w[|w| - 1])
    else LastUrl(isUrl, w[..|w| - 1])
  }

  /** A window holds both a metadata line and a URL line. */
  predicate Complete(isUrl: string -> bool, w: seq<string>) {
    LastInfo(w).Some? && LastUrl(isUrl, w).Some?
  }

  /**
   * `pairs` is how the lines from `lo` on pair up: each pair closes the shortest
   * window (starting after the previous pair) that holds a metadata line and a URL
   * line, and takes the LAST of each in that window; the lines after the final pair
   * hold no complete window.
   */
  predicate IsPairingFrom(lines: seq<string>, isUrl: string -> bool, lo: nat, pairs: seq<Pair>)
    requires lo <= |lines|
    decreases |pairs|
  {
    if pairs == [] then !Complete(isUrl, lines[lo..])
    else
      var c := pairs[0].line;
      && lo <= c < |lines|
      && !Complete(isUrl, lines[lo..c])
      && LastInfo(lines[lo..c + 1]) == Some(pairs[0].meta)
      && LastUrl(isUrl, lines[lo..c + 1]) == Some(pairs[0].url)
      && IsPairingFrom(lines, isUrl, c + 1, pairs[1..])
  }

  /** The pairs the scan forms over a whole document. */
  function Pairing(lines: seq<string>, isUrl: string -> bool): (r: seq<Pair>)
    ensures IsPairingFrom(lines, isUrl, 0, r)
  {
    PairUpIsPairing(lines, isUrl, 0, 0, Idle);
    PairUp(lines, isUrl, 0, Idle)
  }

  lemma LastOfSnoc(isUrl: string -> bool, lines: seq<string>, lo: nat, i: nat)
    requires lo <= i < |lines|
    ensures LastInfo(lines[lo..i + 1]) == if IsInfoLine(lines[i]) then Some(lines[i]) else LastInfo(lines[lo..i])
    ensures LastUrl(isUrl, lines[lo..i + 1]) == if IsUrlLine(isUrl, lines[i]) then Some(lines[i]) else LastUrl(isUrl, lines[lo..i])
  {
    assert lines[lo..i + 1][..i - lo] == lines[lo..i];
  }

  /** The state machine forms exactly the pairs the rule describes. */
  lemma {:induction false} PairUpIsPairing(lines: seq<string>, isUrl: string -> bool, lo: nat, i: nat, p: Pending)
    requires lo <= i <= |lines|
    requires p == Pending(LastInfo(lines[lo..i]), LastUrl(isUrl, lines[lo..i]))
    requires !Complete(isUrl, lines[lo..i])
    ensures IsPairingFrom(lines, isUrl, lo, PairUp(lines, isUrl, i, p))
    decreases |lines| - i
  {
    if i < |lines| {
      var q := Absorb(isUrl, p, lines[i]);
      LastOfSnoc(isUrl, lines, lo, i);
      assert q == Pending(LastInfo(lines[lo..i + 1]), LastUrl(isUrl, lines[lo..i + 1]));
      if q.meta.Some? && q.url.Some? {
        assert lines[i + 1..i + 1] == [];
        PairUpIsPairing(lines, isUrl, i + 1, i + 1, Idle);
        var pairs := PairUp(lines, isUrl, i, p);
        assert pairs[1..] == PairUp(lines, isUrl, i + 1, Idle);
      } else {
        PairUpIsPairing(lines, isUrl, lo, i + 1, q);
      }
    } else {
      assert lines[lo..i] == lines[lo..];
    }
  }

  lemma {:induction false} LastInfoGrows(lines: seq<string>, lo: nat, m: nat, n: nat)
    requires lo <= m <= n <= |lines|
    requires LastInfo(lines[lo..m]).Some?
    ensures LastInfo(lines[lo..n]).Some?
    decreases n - m
  {
    if m < n {
      LastOfSnoc(x => false, lines, lo, m);
      LastInfoGrows(lines, lo, m + 1, n);
    }
  }

  lemma {:induction false} LastUrlGrows(isUrl: string -> bool, lines: seq<string>, lo: nat, m: nat, n: nat)
    requires lo <= m <= n <= |lines|
    requires LastUrl(isUrl, lines[lo..m]).Some?
    ensures LastUrl(isUrl, lines[lo..n]).Some?
    decreases n - m
  {
    if m < n {
      LastOfSnoc(isUrl, lines, lo, m);
      LastUrlGrows(isUrl, lines, lo, m + 1, n);
    }
  }

  /** A window that is complete stays complete as it grows. */
  lemma CompleteGrows(isUrl: string -> bool, lines: seq<string>, lo: nat, m: nat, n: nat)
    requires lo <= m <= n <= |lines|
    requires Complete(isUrl, lines[lo..m])
    ensures Complete(isUrl, lines[lo..n])
  {
    LastInfoGrows(lines, lo, m, n);
    LastUrlGrows(isUrl, lines, lo, m, n);
  }

  /** Two pairings of the same lines close their first pair on the same line, with the same lines. */
  lemma PairingHeads(lines: seq<string>, isUrl: string -> bool, lo: nat, a: seq<Pair>, b: seq<Pair>)
    requires lo <= |lines|
    requires IsPairingFrom(lines, isUrl, lo, a) && IsPairingFrom(lines, isUrl, lo, b)
    requires a != [] && b != []
    ensures a[0] == b[0]
  {
    var ca, cb := a[0].line, b[0].line;
    if ca < cb {
      CompleteGrows(isUrl, lines, lo, ca + 1, cb);
    } else if cb < ca {
      CompleteGrows(isUrl, lines, lo, cb + 1, ca);
    }
  }

  /** A pairing is empty exactly when every other pairing of the same lines is. */
  lemma PairingEmpty(lines: seq<string>, isUrl: string -> bool, lo: nat, a: seq<Pair>, b: seq<Pair>)
    requires lo <= |lines|
    requires IsPairingFrom(lines, isUrl, lo, a) && IsPairingFrom(lines, isUrl, lo, b)
    ensures a == [] <==> b == []
  {
    if a != [] && b == [] {
      assert lines[lo..|lines|] == lines[lo..];
      CompleteGrows(isUrl, lines, lo, a[0].line + 1, |lines|);
    } else if a == [] && b != [] {
      assert lines[lo..|lines|] == lines[lo..];
      CompleteGrows(isUrl, lines, lo, b[0].line + 1, |lines|);
    }
  }

  /** The rule determines the pairs: two pairings of the same lines are equal. */
  lemma {:induction false} PairingUnique(lines: seq<string>, isUrl: string -> bool, lo: nat, a: seq<Pair>, b: seq<Pair>)
    requires lo <= |lines|
    requires IsPairingFrom(lines, isUrl, lo, a) && IsPairingFrom(lines, isUrl, lo, b)
    ensures a == b
    decreases |a|
  {
    PairingEmpty(lines, isUrl, lo, a, b);
    if a != [] {
      PairingHeads(lines, isUrl, lo, a, b);
      PairingUnique(lines, isUrl, a[0].line + 1, a[1..], b[1..]);
      assert a == [a[0]] + a[1..] && b == [b[0]] + b[1..];
    }
  }

  // ---------------------------------------------------------------------------
  // Counting.

  function CountInfo(w: seq<string>): nat {
    if |w| == 0 then 0 else CountInfo(w[..|w| - 1]) + (if IsInfoLine(w[|w| - 1]) then 1 else 0)
  }

  function CountUrl(isUrl: string -> bool, w: seq<string>): nat {
    if |w| == 0 then 0 else CountUrl(isUrl, w[..|w| - 1]) + (if IsUrlLine(isUrl, w[|w| - 1]) then 1 else 0)
  }

  lemma {:induction false} CountSplit(isUrl: string -> bool, a: seq<string>, b: seq<string>)
    ensures CountInfo(a + b) == CountInfo(a) + CountInfo(b)
    ensures CountUrl(isUrl, a + b) == CountUrl(isUrl, a) + CountUrl(isUrl, b)
    decreases |b|
  {
    if |b| > 0 {
      var b' := b[..|b| - 1];
      assert (a + b)[..|a + b| - 1] == a + b';
      CountSplit(isUrl, a, b');
    } else {
      assert a + b == a;
    }
  }

  lemma {:induction false} LastCounts(isUrl: string -> bool, w: seq<string>)
    ensures LastInfo(w).Some? ==> CountInfo(w) >= 1
    ensures LastUrl(isUrl, w).Some? ==> CountUrl(isUrl, w) >= 1
    decreases |w|
  {
    if |w| > 0 {
      LastCounts(isUrl, w[..|w| - 1]);
    }
  }

  /** Every pair uses up at least one metadata line and one URL line of its own. */
  lemma {:induction false} PairingCount(lines: seq<string>, isUrl: string -> bool, lo: nat, pairs: seq<Pair>)
    requires lo <= |lines|
    requires IsPairingFrom(lines, isUrl, lo, pairs)
    ensures |pairs| <= CountInfo(lines[lo..])
    ensures |pairs| <= CountUrl(isUrl, lines[lo..])
    decreases |pairs|
  {
    if pairs != [] {
      var c := pairs[0].line;
      PairingCount(lines, isUrl, c + 1, pairs[1..]);
      assert lines[lo..] == lines[lo..c + 1] + lines[c + 1..];
      CountSplit(isUrl, lines[lo..c + 1], lines[c + 1..]);
      LastCounts(isUrl, lines[lo..c + 1]);
    }
  }

  // ---------------------------------------------------------------------------
  // Building entries from the pairs.

  function BuildPair<T, E>(build: (nat, string, string) -> Result<T, E>, pr: Pair): Result<T, E> {
    build(pr.line, pr.meta, pr.url)
  }

  /**
   * Building the pairs in order and stopping at the first failure: the entries are
   * the built leading pairs, and the error is the first pair's that failed.
   */
  function Assemble<T, E>(build: (nat, string, string) -> Result<T, E>, pairs: seq<Pair>): (r: Outcome<T, E>)
    ensures |r.emitted| <= |pairs|
    ensures forall k :: 0 <= k < |r.emitted| ==> BuildPair(build, pairs[k]) == Success(r.emitted[k])
    ensures r.failure.None? ==> |r.emitted| == |pairs|
    ensures r.failure.Some? ==> |r.emitted| < |pairs|
                                && BuildPair(build, pairs[|r.emitted|]) == Failure(r.failure.value)
  {
    if pairs == [] then Outcome([], None)
    else match BuildPair(build, pairs[0])
      case Failure(e) => Outcome([], Some(e))
      case Success(t) =>
        var rest := Assemble(build, pairs[1..]);
        Outcome([t] + rest.emitted, rest.failure)
  }

  /** The interleaved scan is the pairing followed by building, stopped at the first failure. */
  lemma {:induction false} RunAssembles<T, E>(lines: seq<string>, isUrl: string -> bool, build: (nat, string, string) -> Result<T, E>,
                                          i: nat, p: Pending, acc: seq<T>)
    requires i <= |lines|
    ensures var a := Assemble(build, PairUp(lines, isUrl, i, p));
            Run(lines, isUrl, build, i, p, acc) == Outcome(acc + a.emitted, a.failure)
    decreases |lines| - i, 2
  {
    if i < |lines| {
      var q := Absorb(isUrl, p, lines[i]);
      if q.meta.Some? && q.url.Some? {
        RunAssemblesPair(lines, isUrl, build, i, p, acc);
      } else {
        RunAssembles(lines, isUrl, build, i + 1, q, acc);
      }
    } else {
      assert acc + [] == acc;
    }
  }

  /** The step of `RunAssembles` at a line that completes a pair. */
  lemma {:induction false} RunAssemblesPair<T, E>(lines: seq<string>, isUrl: string -> bool,
                                              build: (nat, string, string) -> Result<T, E>,
                                              i: nat, p: Pending, acc: seq<T>)
    requires i < |lines|
    requires Absorb(isUrl, p, lines[i]).meta.Some? && Absorb(isUrl, p, lines[i]).url.Some?
    ensures var a := Assemble(build, PairUp(lines, isUrl, i, p));
            Run(lines, isUrl, build, i, p, acc) == Outcome(acc + a.emitted, a.failure)
    decreases |lines| - i, 1
  {
    var q := Absorb(isUrl, p, lines[i]);
    PairUpStep(lines, isUrl, i, p);
    AssembleStep(build, Pair(i, q.meta.value, q.url.value), PairUp(lines, isUrl, i + 1, Idle));
    if build(i, q.meta.value, q.url.value).Success? {
      RunAssemblesBuilt(lines, isUrl, build, i, p, acc);
    } else {
      assert acc + [] == acc;
    }
  }

  /** The same step when the pair builds: its entry goes before the rest's. */
  lemma {:induction false} RunAssemblesBuilt<T, E>(lines: seq<string>, isUrl: string -> bool,
                                               build: (nat, string, string) -> Result<T, E>,
                                               i: nat, p: Pending, acc: seq<T>)
    requires i < |lines|
    requires Absorb(isUrl, p, lines[i]).meta.Some? && Absorb(isUrl, p, lines[i]).url.Some?
    requires var q := Absorb(isUrl, p, lines[i]);
             build(i, q.meta.value, q.url.value).Success?
    ensures var q := Absorb(isUrl, p, lines[i]);
            var a := Assemble(build, PairUp(lines, isUrl, i + 1, Idle));
            Run(lines, isUrl, build, i, p, acc)
            == Outcome(acc + ([build(i, q.meta.value, q.url.value).value] + a.emitted), a.failure)
    decreases |lines| - i, 0
  {
    var q := Absorb(isUrl, p, lines[i]);
    var t := build(i, q.meta.value, q.url.value).value;
    RunAssembles(lines, isUrl, build, i + 1, Idle, acc + [t]);
    var a := Assemble(build, PairUp(lines, isUrl, i + 1, Idle));
    assert acc + [t] + a.emitted == acc + ([t] + a.emitted);
  }

  /** At a line that completes a pair, the pairing holds that pair and then the rest. */
  lemma PairUpStep(lines: seq<string>, isUrl: string -> bool, i: nat, p: Pending)
    requires i < |lines|
    requires Absorb(isUrl, p, lines[i]).meta.Some? && Absorb(isUrl, p, lines[i]).url.Some?
    ensures var q := Absorb(isUrl, p, lines[i]);
            PairUp(lines, isUrl, i, p)
            == [Pair(i, q.meta.value, q.url.value)] + PairUp(lines, isUrl, i + 1, Idle)
  {
  }

  /** Assembling a leading pair: its failure stops, its entry is put before the rest's. */
  lemma AssembleStep<T, E>(build: (nat, string, string) -> Result<T, E>, pr: Pair, rest: seq<Pair>)
    ensures Assemble(build, [pr] + rest)
            == match BuildPair(build, pr)
               case Failure(e) => Outcome([], Some(e))
               case Success(t) => Outcome([t] + Assemble(build, rest).emitted, Assemble(build, rest).failure)
  {
    assert ([pr] + rest)[1..] == rest;
  }

  /** The whole scan, pairing first. */
  lemma ScanAssembles<T, E>(lines: seq<string>, isUrl: string -> bool, build: (nat, string, string) -> Result<T, E>)
    ensures Scan(lines, isUrl, build) == Assemble(build, Pairing(lines, isUrl))
  {
    RunAssembles(lines, isUrl, build, 0, Idle, []);
    assert [] + Assemble(build, Pairing(lines, isUrl)).emitted == Assemble(build, Pairing(lines, isUrl)).emitted;
  }

  /** Fail-fast: once a line has stopped the scan, the lines after it are never looked at. */
  lemma {:induction false} RunStops<T, E>(lines: seq<string>, extra: seq<string>, isUrl: string -> bool,
                                       build: (nat, string, string) -> Result<T, E>, i: nat, p: Pending, acc: seq<T>)
    requires i <= |lines|
    requires Run(lines, isUrl, build, i, p, acc).failure.Some?
    ensures Run(lines + extra, isUrl, build, i, p, acc) == Run(lines, isUrl, build, i, p, acc)
    decreases |lines| - i
  {
    assert (lines + extra)[i] == lines[i];
    var q := Absorb(isUrl, p, lines[i]);
    if q.meta.Some? && q.url.Some? {
      match build(i, q.meta.value, q.url.value)
      case Failure(e) =>
      case Success(t) => RunStops(lines, extra, isUrl, build, i + 1, Idle, acc + [t]);
    } else {
      RunStops(lines, extra, isUrl, build, i + 1, q, acc);
    }
  }

  /**
   * The incremental mode: the handler is called (here: `delivered` grows) for each
   * entry as it completes, and the first failure stops the enumeration.
   */
  method Walk<T, E>(lines: seq<string>, isUrl: string -> bool, build: (nat, string, string) -> Result<T, E>)
    returns (delivered: seq<T>, failure: Option<E>)
    ensures Outcome(delivered, failure) == Scan(lines, isUrl, build)
  {
    var pending := Idle;
    var lineNumber := 0;
    var stop := false;
    delivered, failure := [], None;
    while lineNumber < |lines| && !stop
      invariant lineNumber <= |lines|
      invariant !stop ==> failure.None? && Scan(lines, isUrl, build) == Run(lines, isUrl, build, lineNumber, pending, delivered)
      invariant stop ==> Scan(lines, isUrl, build) == Outcome(delivered, failure)
      decreases |lines| - lineNumber, !stop
    {
      var line := lines[lineNumber];
      if IsInfoLine(line) {
        pending := pending.(meta := Some(line));
      } else if isUrl(line) {
        pending := pending.(url := Some(line));
      }
      if pending.meta.Some? && pending.url.Some? {
        match build(lineNumber, pending.meta.value, pending.url.value)
        case Success(t) =>
          delivered := delivered + [t];
          pending := Idle;
        case Failure(e) =>
          failure := Some(e);
          stop := true;
      }
      lineNumber := lineNumber + 1;
    }
  }
}
