/** `MediaKindParser` of the decomposed revision: a media's kind from its URL's path markers. */
module MediaKindParser {
  import opened Patterns
  import opened Model

  /** The marker that announces each kind; `Unknown` has none. */
  function MarkerOf(k: Kind): string
    requires k != Unknown
  {
    match k
    case Series => SeriesMarker
    case Movie => MoviesMarker
    case Live => LiveMarker
  }

  /** The kinds tested before `k`, in testing order. */
  function TestedBefore(k: Kind): seq<Kind> {
    match k
    case Series => []
    case Movie => [Series]
    case Live => [Series, Movie]
    case Unknown => [Series, Movie, Live]
  }

  /** `numberOfMatches` counts a kind's marker once: the only count that qualifies. */
  ghost predicate Qualifies(s: string, k: Kind)
    requires k != Unknown
  {
    OccursOnce(s, MarkerOf(k), 0)
  }

  /**
   * The result's marker occurs exactly once in the absolute string, and no marker
   * tested before it does; `Unknown` when none of the three qualifies. A marker found
   * twice does not qualify and the next one is tried.
   */
  function Parse(plat: Platform, input: Url): (r: Kind)
    ensures var s := plat.absoluteString(input.line);
            && (r != Unknown ==> Qualifies(s, r))
            && (forall k :: k in TestedBefore(r) ==> !Qualifies(s, k))
  {
    var s := plat.absoluteString(input.line);
    if CountMatches(s, SeriesMarker) == 1 then Series
    else if CountMatches(s, MoviesMarker) == 1 then Movie
    else if CountMatches(s, LiveMarker) == 1 then Live
    else Unknown
  }

  /** The contract pins the result down: any kind meeting it is the one `Parse` returns. */
  lemma ParseIsDetermined(plat: Platform, input: Url, k: Kind)
    requires var s := plat.absoluteString(input.line);
             && (k != Unknown ==> Qualifies(s, k))
             && (forall j :: j in TestedBefore(k) ==> !Qualifies(s, j))
    ensures Parse(plat, input) == k
  {
    var r := Parse(plat, input);
    assert r in TestedBefore(k) || r == k || k in TestedBefore(r) by {
      match r
      case Series =>
      case Movie =>
      case Live =>
      case Unknown =>
    }
  }
}
