/** Character-level helpers: ASCII digits, Swift's `Int(String)` conversion and its inverse. */
module Text {
  import opened Wrappers

  predicate StartsWith(s: string, prefix: string) {
    |prefix| <= |s| && s[..|prefix|] == prefix
  }

  predicate IsDigit(c: char) {
    '0' <= c <= '9'
  }

  predicate AllDigits(s: string) {
    forall i :: 0 <= i < |s| ==> IsDigit(s[i])
  }

  function DigitValue(c: char): nat
    requires IsDigit(c)
  {
    c as int - '0' as int
  }

  function DigitChar(d: nat): (c: char)
    requires d < 10
    ensures IsDigit(c) && DigitValue(c) == d
  {
    ('0' as int + d) as char
  }

  /** The value of a string of decimal digits, most significant first. */
  function DigitsValue(s: string): nat
    requires AllDigits(s)
  {
    if |s| == 0 then 0 else 10 * DigitsValue(s[..|s| - 1]) + DigitValue(s[|s| - 1])
  }

  /** The shortest decimal spelling of `n`: the inverse of `DigitsValue`. */
  function Decimal(n: nat): (r: string)
    ensures |r| > 0 && AllDigits(r)
    ensures DigitsValue(r) == n
    ensures |r| > 1 ==> r[0] != '0'
  {
    if n < 10 then [DigitChar(n)]
    else
      var r := Decimal(n / 10) + [DigitChar(n % 10)];
      assert r[..|r| - 1] == Decimal(n / 10);
      r
  }

  /** The decimal spelling Swift's `String(n)` gives a signed integer. */
  function IntText(n: int): (r: string)
    ensures |r| > 0
  {
    if n < 0 then "-" + Decimal(-n) else Decimal(n)
  }

  /** Swift's `Int` is 64 bits wide on every platform the package supports. */
  const Int64Min: int := -0x8000_0000_0000_0000
  const Int64Max: int := 0x7fff_ffff_ffff_ffff

  predicate InInt64(n: int) {
    Int64Min <= n <= Int64Max
  }

  /**
   * Swift's failable `Int(_: String)` in radix 10: one optional `+` or `-`,
   * then at least one digit and nothing else, and the value must fit in 64 bits.
   */
  function ParseInt(s: string): (r: Option<int>)
    ensures r.Some? ==> InInt64(r.value)
    ensures r.Some? ==> |s| > 0
    ensures |s| > 0 && AllDigits(s) && DigitsValue(s) <= Int64Max ==> r == Some(DigitsValue(s))
    ensures |s| > 0 && AllDigits(s) && DigitsValue(s) > Int64Max ==> r.None?
    ensures |s| > 1 && s[0] == '+' && AllDigits(s[1..]) && DigitsValue(s[1..]) <= Int64Max
            ==> r == Some(DigitsValue(s[1..]))
    ensures |s| > 1 && s[0] == '+' && AllDigits(s[1..]) && DigitsValue(s[1..]) > Int64Max ==> r.None?
    ensures |s| > 1 && s[0] == '-' && AllDigits(s[1..]) && DigitsValue(s[1..]) <= -Int64Min
            ==> r == Some(-(DigitsValue(s[1..]) as int))
    ensures |s| > 1 && s[0] == '-' && AllDigits(s[1..]) && DigitsValue(s[1..]) > -Int64Min ==> r.None?
    ensures s == "+" || s == "-" ==> r.None?
    ensures |s| > 0 && s[0] != '+' && s[0] != '-' && !AllDigits(s) ==> r.None?
    ensures |s| > 0 && (s[0] == '+' || s[0] == '-') && !AllDigits(s[1..]) ==> r.None?
  {
    if |s| > 0 && (s[0] == '+' || s[0] == '-') then
      var body := s[1..];
      if |body| > 0 && AllDigits(body) then
        var v := if s[0] == '-' then -(DigitsValue(body) as int) else DigitsValue(body);
        if InInt64(v) then Some(v) else None
      else None
    else if |s| > 0 && AllDigits(s) && DigitsValue(s) <= Int64Max then Some(DigitsValue(s))
    else None
  }

  /** Printing a 64-bit integer and converting it back gives the same integer. */
  lemma ParseIntText(n: int)
    requires InInt64(n)
    ensures ParseInt(IntText(n)) == Some(n)
  {
    if n < 0 {
      var t := IntText(n);
      assert t[1..] == Decimal(-n);
    } else {
      assert IntText(n)[0] != '-';
    }
  }

  /** Swift `split(separator:)` drops empty pieces, so `.first` is the first non-empty piece. */
  function FirstPiece(s: string, sep: char): (r: string)
    ensures sep !in r
    ensures r == [] <==> forall k :: 0 <= k < |s| ==> s[k] == sep
    ensures r != [] ==> exists i :: PieceAt(s, sep, i, r)
  {
    var i := LeadingRun(s, sep);
    var r := TakeUntil(s[i..], sep);
    assert r != [] ==> PieceAt(s, sep, i, r);
    r
  }

  /** `r` sits at `i` in `s`, preceded only by separators and ended by one or by the end of `s`. */
  predicate PieceAt(s: string, sep: char, i: nat, r: string) {
    && i + |r| <= |s|
    && s[i..i + |r|] == r
    && (forall k :: 0 <= k < i ==> s[k] == sep)
    && (i + |r| == |s| || s[i + |r|] == sep)
  }

  /** How many copies of `c` open `s`. */
  function LeadingRun(s: string, c: char): (n: nat)
    ensures n <= |s|
    ensures forall k :: 0 <= k < n ==> s[k] == c
    ensures n < |s| ==> s[n] != c
  {
    if |s| == 0 || s[0] != c then 0 else 1 + LeadingRun(s[1..], c)
  }

  /** The longest prefix of `s` without `sep`. */
  function TakeUntil(s: string, sep: char): (r: string)
    ensures |r| <= |s| && r == s[..|r|] && sep !in r
    ensures |r| < |s| ==> s[|r|] == sep
  {
    if |s| == 0 || s[0] == sep then [] else [s[0]] + TakeUntil(s[1..], sep)
  }

  lemma {:induction false} TakeUntilIs(piece: string, tail: string, sep: char)
    requires sep !in piece
    requires tail == [] || tail[0] == sep
    ensures TakeUntil(piece + tail, sep) == piece
  {
    if piece != [] {
      assert (piece + tail)[1..] == piece[1..] + tail;
      TakeUntilIs(piece[1..], tail, sep);
    } else {
      assert piece + tail == tail;
    }
  }

  /**
   * A separator-free piece at the start, ended by a separator or the end, is the first
   * piece: what `split` would give first.
   */
  lemma FirstPieceIs(piece: string, tail: string, sep: char)
    requires piece != [] && sep !in piece
    requires tail == [] || tail[0] == sep
    ensures FirstPiece(piece + tail, sep) == piece
  {
    var s := piece + tail;
    assert s[0] == piece[0];
    assert LeadingRun(s, sep) == 0;
    assert s[0..] == s;
    TakeUntilIs(piece, tail, sep);
  }
}
