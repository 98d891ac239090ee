/**
 * Metadata lines as playlist writers produce them: a head, then ` key="value"` tags,
 * then the rest. For such lines the tag search of `Patterns` finds exactly the value
 * written for the key, wherever the tag stands among the others.
 */
module TagLines {
  import opened Wrappers
  import opened Patterns

  /** One `key="value"` attribute. */
  datatype Tagged = Tagged(key: string, value: string)

  /** The text of one tag, with the space that separates it from what precedes it. */
  function TagText(t: Tagged): string {
    " " + t.key + "=\"" + t.value + "\""
  }

  /** The tags written one after another. */
  function TagsText(ts: seq<Tagged>): string
    decreases |ts|
  {
    if ts == [] then [] else TagText(ts[0]) + TagsText(ts[1..])
  }

  predicate QuoteFree(s: string) {
    forall i :: 0 <= i < |s| ==> s[i] != '"'
  }

  predicate EndsWith(s: string, t: string) {
    |t| <= |s| && s[|s| - |t|..] == t
  }

  /** A key the search can tell apart from the text around it: non-empty, no quote, no space. */
  predicate SearchableKey(key: string) {
    key != [] && QuoteFree(key) && forall i :: 0 <= i < |key| ==> key[i] != ' '
  }

  /** A tag as writers produce it: no quotes inside its key or its value. */
  predicate WellFormed(t: Tagged) {
    QuoteFree(t.key) && QuoteFree(t.value)
  }

  predicate AllWellFormed(ts: seq<Tagged>) {
    forall i :: 0 <= i < |ts| ==> WellFormed(ts[i])
  }

  /**
   * No other tag's key ends with `key` and no other tag's value ends with `key=`,
   * so `key="` cannot be found inside another tag.
   */
  predicate Distinguishable(ts: seq<Tagged>, key: string) {
    forall i :: 0 <= i < |ts| ==> ts[i].key == key || (!EndsWith(ts[i].key, key) && !EndsWith(ts[i].value, key + "="))
  }

  predicate DistinctKeys(ts: seq<Tagged>) {
    forall i, j :: 0 <= i < j < |ts| ==> ts[i].key != ts[j].key
  }

  /** The value of the first tag with the given key. */
  function Lookup(ts: seq<Tagged>, key: string): (r: Option<string>)
    ensures r.Some? ==> exists i :: 0 <= i < |ts| && ts[i] == Tagged(key, r.value)
    ensures r.None? <==> forall i :: 0 <= i < |ts| ==> ts[i].key != key
    decreases |ts|
  {
    if ts == [] then None
    else if ts[0].key == key then Some(ts[0].value)
    else
      var r := Lookup(ts[1..], key);
      assert r.Some? ==> exists i :: 1 <= i < |ts| && ts[i] == Tagged(key, r.value) by {
        if r.Some? {
          var i :| 0 <= i < |ts[1..]| && ts[1..][i] == Tagged(key, r.value);
          assert ts[i + 1] == Tagged(key, r.value);
        }
      }
      assert (forall i :: 0 <= i < |ts[1..]| ==> ts[1..][i].key != key) <==> (forall i :: 1 <= i < |ts| ==> ts[i].key != key) by {
        forall i | 1 <= i < |ts| ensures ts[i] == ts[1..][i - 1] { }
      }
      r
  }

  // ---------------------------------------------------------------------------
  // Positions in a line.

  /** What a match of `key="` at `q` says about the characters there. */
  lemma MatchShape(s: string, key: string, q: nat)
    ensures MatchesAt(Tag(key), s, q) ==>
              && q + |key| + 2 <= |s|
              && s[q + |key|] == '=' && s[q + |key| + 1] == '"'
              && (forall i :: q <= i < q + |key| ==> s[i] == key[i - q])
              && (QuoteFree(key) ==> forall i :: q <= i <= q + |key| ==> s[i] != '"')
  {
    if MatchesAt(Tag(key), s, q) {
      var m := key + "=\"";
      assert s[q..q + |key| + 2] == m;
      forall i | q <= i < q + |key| + 2 ensures s[i] == m[i - q] {
        assert s[q..q + |key| + 2][i - q] == s[i];
      }
    }
  }

  /** A slice holding two texts one after the other holds each of them. */
  lemma SliceSplit(s: string, off: nat, a: string, b: string)
    requires off + |a + b| <= |s| && s[off..off + |a + b|] == a + b
    ensures s[off..off + |a|] == a
    ensures s[off + |a|..off + |a| + |b|] == b
  {
    assert s[off..off + |a + b|][..|a|] == s[off..off + |a|];
    assert s[off..off + |a + b|][|a|..] == s[off + |a|..off + |a| + |b|];
  }

  /** The characters of one tag written at `off`. */
  lemma TagTextShape(s: string, off: nat, t: Tagged)
    requires off + |TagText(t)| <= |s| && s[off..off + |TagText(t)|] == TagText(t)
    ensures |TagText(t)| == |t.key| + |t.value| + 4
    ensures s[off] == ' '
    ensures forall j :: 0 <= j < |t.key| ==> s[off + 1 + j] == t.key[j]
    ensures s[off + 1 + |t.key|] == '=' && s[off + 2 + |t.key|] == '"'
    ensures forall j :: 0 <= j < |t.value| ==> s[off + 3 + |t.key| + j] == t.value[j]
    ensures s[off + 3 + |t.key| + |t.value|] == '"'
  {
    var w := TagText(t);
    forall i | 0 <= i < |w| ensures s[off + i] == w[i] {
      assert s[off..off + |w|][i] == s[off + i];
    }
    assert w[0] == ' ';
    assert forall j :: 0 <= j < |t.key| ==> w[1 + j] == t.key[j];
    assert w[1 + |t.key|] == '=' && w[2 + |t.key|] == '"';
    assert forall j :: 0 <= j < |t.value| ==> w[3 + |t.key| + j] == t.value[j];
    assert w[3 + |t.key| + |t.value|] == '"';
  }

  /**
   * No match of `key="` starts in quote-free text before a tag or on the tag's
   * space; none starts inside a tag whose key is not `key` and does not end with it,
   * and whose value does not end with `key=`.
   */
  lemma NoMatchAroundTag(s: string, key: string, lo: nat, off: nat, t: Tagged)
    requires SearchableKey(key) && WellFormed(t)
    requires lo <= off && off + |TagText(t)| <= |s| && s[off..off + |TagText(t)|] == TagText(t)
    requires forall i :: lo <= i < off ==> s[i] != '"'
    ensures forall q: nat :: lo <= q <= off ==> !MatchesAt(Tag(key), s, q)
    ensures t.key != key && !EndsWith(t.key, key) && !EndsWith(t.value, key + "=") ==>
              forall q: nat :: lo <= q < off + |TagText(t)| ==> !MatchesAt(Tag(key), s, q)
  {
    forall q: nat | lo <= q < off + |TagText(t)|
      ensures MatchesAt(Tag(key), s, q) ==>
                off < q && (t.key == key || EndsWith(t.key, key) || EndsWith(t.value, key + "="))
    {
      NoMatchAt(s, key, lo, off, t, q);
    }
  }

  /** One start position of `NoMatchAroundTag`. */
  lemma NoMatchAt(s: string, key: string, lo: nat, off: nat, t: Tagged, q: nat)
    requires SearchableKey(key) && WellFormed(t)
    requires lo <= off && off + |TagText(t)| <= |s| && s[off..off + |TagText(t)|] == TagText(t)
    requires forall i :: lo <= i < off ==> s[i] != '"'
    requires lo <= q < off + |TagText(t)|
    ensures MatchesAt(Tag(key), s, q) ==>
              off < q && (t.key == key || EndsWith(t.key, key) || EndsWith(t.value, key + "="))
  {
    TagTextShape(s, off, t);
    var k, v := t.key, t.value;
    var o := off + 2 + |k|;
    var c := o + 1 + |v|;
    MatchShape(s, key, q);
    var e := q + |key| + 1;
    if e < o {
      if e > off && e < o - 1 {
        assert s[e] == k[e - off - 1];
      }
      assert s[e] != '"';
    } else if e == o {
      if off < q {
        assert MatchesAt(Tag(key), s, q) ==> k[|k| - |key|..] == key by {
          if MatchesAt(Tag(key), s, q) {
            forall j | 0 <= j < |key| ensures k[|k| - |key| + j] == key[j] {
              assert s[q + j] == k[|k| - |key| + j];
            }
          }
        }
      }
    } else if e < c {
      assert s[e] == v[e - o - 1];
    } else if e == c {
      if MatchesAt(Tag(key), s, q) {
        // The key holds no quote, so the match lies after the value's opening quote.
        assert s[o] == '"';
        assert o < q;
        forall j | 0 <= j < |key| + 1 ensures v[|v| - |key| - 1 + j] == (key + "=")[j] {
          assert s[q + j] == v[q + j - o - 1];
        }
        assert v[|v| - |key| - 1..] == key + "=";
      }
    } else {
      assert s[c] == '"';
    }
  }

  /** A quote-free value followed by its closing quote is what the group captures. */
  lemma ValueAt(s: string, q: nat, v: string)
    requires QuoteFree(v) && q + |v| < |s|
    requires forall j :: 0 <= j < |v| ==> s[q + j] == v[j]
    requires s[q + |v|] == '"'
    requires v == [] ==> q + 1 == |s| || s[q + 1] != '"'
    ensures TagValueAt(s, q) == Some(v)
  {
    forall i | q <= i < q + |v| ensures s[i] != '"' {
      assert s[i] == v[i - q];
    }
    assert NextQuote(s, q) == Some(q + |v|);
    assert s[q..q + |v|] == v;
  }

  /** A tag with key `key` matches on its key, and the capture is its value. */
  lemma TagMatches(s: string, off: nat, t: Tagged)
    requires WellFormed(t)
    requires off + |TagText(t)| <= |s| && s[off..off + |TagText(t)|] == TagText(t)
    requires off + |TagText(t)| == |s| || s[off + |TagText(t)|] != '"'
    ensures MatchesAt(Tag(t.key), s, off + 1)
    ensures TagValueAt(s, off + 3 + |t.key|) == Some(t.value)
  {
    TagValueOfText(s, off, t);
    TagTextShape(s, off, t);
    assert s[off + 1..off + 3 + |t.key|] == t.key + "=\"";
  }

  /** The group starting after a tag's `key="` captures the tag's value. */
  lemma TagValueOfText(s: string, off: nat, t: Tagged)
    requires WellFormed(t)
    requires off + |TagText(t)| <= |s| && s[off..off + |TagText(t)|] == TagText(t)
    requires off + |TagText(t)| == |s| || s[off + |TagText(t)|] != '"'
    ensures TagValueAt(s, off + 3 + |t.key|) == Some(t.value)
  {
    TagTextShape(s, off, t);
    ValueAt(s, off + 3 + |t.key|, t.value);
  }

  /** The tag search is decided by the leftmost match. */
  lemma TagCaptureAt(s: string, key: string, p: nat, v: Option<string>)
    requires MatchesAt(Tag(key), s, p) && TagValueAt(s, p + |key| + 2) == v
    requires forall q: nat :: q < p ==> !MatchesAt(Tag(key), s, q)
    ensures TagCapture(s, key) == v
  {
    TagFoundAt(s, key, p);
    TagFoundUnique(s, key, v, TagCapture(s, key));
  }

  /** Text without quotes holds no tag. */
  lemma QuoteFreeHasNoTag(s: string, key: string)
    requires QuoteFree(s)
    ensures TagCapture(s, key).None?
  {
    forall p: nat ensures !MatchesAt(Tag(key), s, p) {
      MatchShape(s, key, p);
    }
  }

  lemma TagsTextStart(ts: seq<Tagged>)
    requires ts != []
    ensures |TagsText(ts)| > 0 && TagsText(ts)[0] == ' '
  {
    assert TagsText(ts) == TagText(ts[0]) + TagsText(ts[1..]);
  }

  /** The first tag that can match gives the capture. */
  lemma FirstTagFound(s: string, key: string, lo: nat, off: nat, t: Tagged)
    requires SearchableKey(key) && WellFormed(t) && t.key == key
    requires lo <= off && off + |TagText(t)| <= |s| && s[off..off + |TagText(t)|] == TagText(t)
    requires off + |TagText(t)| == |s| || s[off + |TagText(t)|] != '"'
    requires forall i :: lo <= i < off ==> s[i] != '"'
    requires forall q: nat :: q < lo ==> !MatchesAt(Tag(key), s, q)
    ensures TagCapture(s, key) == Some(t.value)
  {
    NoMatchAroundTag(s, key, lo, off, t);
    assert forall q: nat :: q < off + 1 ==> !MatchesAt(Tag(key), s, q) by {
      forall q: nat | q < off + 1 ensures !MatchesAt(Tag(key), s, q) {
        if q >= lo {
          assert lo <= q <= off;
        }
      }
    }
    TagMatches(s, off, t);
    TagCaptureAt(s, key, off + 1, Some(t.value));
  }

  /**
   * Walking the tags from `off`: the first tag with `key` gives the capture; when
   * there is none, no match starts before the end of the tags.
   */
  lemma {:induction false} TagsScan(s: string, key: string, ts: seq<Tagged>, lo: nat, off: nat)
    requires SearchableKey(key) && AllWellFormed(ts) && Distinguishable(ts, key)
    requires lo <= off && off + |TagsText(ts)| <= |s| && s[off..off + |TagsText(ts)|] == TagsText(ts)
    requires off + |TagsText(ts)| == |s| || s[off + |TagsText(ts)|] != '"'
    requires forall i :: lo <= i < off ==> s[i] != '"'
    requires forall q: nat :: q < lo ==> !MatchesAt(Tag(key), s, q)
    ensures Lookup(ts, key).Some? ==> TagCapture(s, key) == Lookup(ts, key)
    ensures Lookup(ts, key).None? && ts != [] ==>
              forall q: nat :: q < off + |TagsText(ts)| ==> !MatchesAt(Tag(key), s, q)
    decreases |ts|
  {
    if ts != [] {
      var t := ts[0];
      var n := off + |TagText(t)|;
      var rest := TagsText(ts[1..]);
      assert TagsText(ts) == TagText(t) + rest;
      SliceSplit(s, off, TagText(t), rest);
      assert WellFormed(ts[0]);
      assert ts[0].key == key || (!EndsWith(ts[0].key, key) && !EndsWith(ts[0].value, key + "="));
      if rest != [] {
        TagsTextStart(ts[1..]);
        assert s[n] == rest[0];
      }
      if t.key == key {
        FirstTagFound(s, key, lo, off, t);
      } else {
        NoMatchAroundTag(s, key, lo, off, t);
        assert AllWellFormed(ts[1..]) && Distinguishable(ts[1..], key) by {
          forall i | 0 <= i < |ts[1..]| ensures ts[1..][i] == ts[i + 1] { }
        }
        TagsScan(s, key, ts[1..], n, n);
      }
    }
  }

  /**
   * The attribute search on a written line: a key that some tag has gives that tag's
   * value (the first one, if several have it); a key no tag has gives nothing when
   * the rest of the line has no quotes.
   */
  lemma TagsRead(head: string, ts: seq<Tagged>, tail: string, key: string)
    requires SearchableKey(key) && QuoteFree(head) && AllWellFormed(ts) && Distinguishable(ts, key)
    requires tail == [] || tail[0] != '"'
    ensures Lookup(ts, key).Some? ==> TagCapture(head + TagsText(ts) + tail, key) == Lookup(ts, key)
    ensures Lookup(ts, key).None? && QuoteFree(tail) ==> TagCapture(head + TagsText(ts) + tail, key).None?
  {
    var s := head + TagsText(ts) + tail;
    var n := |head| + |TagsText(ts)|;
    assert s[|head|..n] == TagsText(ts);
    assert n == |s| || s[n] == tail[0];
    TagsScan(s, key, ts, 0, |head|);
    if Lookup(ts, key).None? && QuoteFree(tail) {
      if ts == [] {
        assert s == head + tail;
        assert QuoteFree(s) by {
          forall i | 0 <= i < |s| ensures s[i] != '"' {
            if i >= |head| { assert s[i] == tail[i - |head|]; }
          }
        }
        QuoteFreeHasNoTag(s, key);
      } else {
        forall q: nat | n <= q ensures !MatchesAt(Tag(key), s, q) {
          MatchShape(s, key, q);
          var e := q + |key| + 1;
          if e < |s| {
            assert s[e] == tail[e - n];
          }
        }
      }
    }
  }

  /** With distinct keys, the first tag with a key is the only one. */
  lemma {:induction false} LookupDistinct(ts: seq<Tagged>, t: Tagged)
    requires DistinctKeys(ts) && t in ts
    ensures Lookup(ts, t.key) == Some(t.value)
    decreases |ts|
  {
    if ts[0] != t {
      assert t in ts[1..];
      assert ts[0].key != t.key;
      LookupDistinct(ts[1..], t);
    }
  }

  /**
   * The order of the tags does not matter: two lines holding the same tags with
   * distinct keys, in any order, give every key the same capture.
   */
  lemma TagOrderIrrelevant(head: string, ts: seq<Tagged>, us: seq<Tagged>, tail: string, key: string)
    requires SearchableKey(key) && QuoteFree(head) && QuoteFree(tail) && (tail == [] || tail[0] != '"')
    requires AllWellFormed(ts) && Distinguishable(ts, key) && DistinctKeys(ts)
    requires AllWellFormed(us) && Distinguishable(us, key) && DistinctKeys(us)
    requires forall t :: t in ts <==> t in us
    ensures TagCapture(head + TagsText(ts) + tail, key) == TagCapture(head + TagsText(us) + tail, key)
  {
    TagsRead(head, ts, tail, key);
    TagsRead(head, us, tail, key);
    var a := Lookup(ts, key);
    if a.Some? {
      LookupDistinct(us, Tagged(key, a.value));
    } else if Lookup(us, key).Some? {
      LookupDistinct(ts, Tagged(key, Lookup(us, key).value));
    }
  }
  // ---------------------------------------------------------------------------
  // The eight attribute keys.

  /** The keys every attribute parser searches for. */
  const AttributeKeys: seq<string> :=
    [IdKey, NameKey, CountryKey, LanguageKey, LogoKey, ChannelNumberKey, ShiftKey, GroupTitleKey]

  lemma AttributeKeysSearchable()
    ensures forall k :: k in AttributeKeys ==> SearchableKey(k)
  {
  }

  /**
   * A metadata line as writers produce it: a head and a rest without quotes around
   * well-formed tags, none of whose keys hides an attribute key at its end.
   */
  predicate WrittenLine(head: string, ts: seq<Tagged>, tail: string) {
    && QuoteFree(head) && QuoteFree(tail) && AllWellFormed(ts)
    && forall k :: k in AttributeKeys ==> Distinguishable(ts, k)
  }

  /** On a written line each attribute key reads back the first value written for it, or nothing. */
  lemma ReadAttribute(head: string, ts: seq<Tagged>, tail: string, key: string)
    requires WrittenLine(head, ts, tail) && key in AttributeKeys
    ensures TagCapture(head + TagsText(ts) + tail, key) == Lookup(ts, key)
  {
    AttributeKeysSearchable();
    TagsRead(head, ts, tail, key);
  }

  // ---------------------------------------------------------------------------
  // The attribute example: the "DW English" channel line.

  /** What the "DW English" line starts with: the marker and a duration of -1. */
  const DwEnglishHead: string := "#EXTINF:-1"

  /** The tags of the "DW English" line, in the order it writes them. */
  const DwEnglishTags: seq<Tagged> := [
    Tagged(NameKey, "DWEnglish.de"),
    Tagged(IdKey, "DWEnglish.de"),
    Tagged(CountryKey, "INT"),
    Tagged(LanguageKey, "English"),
    Tagged(LogoKey, "https://i.imgur.com/A1xzjOI.png"),
    Tagged(ChannelNumberKey, "1"),
    Tagged(ShiftKey, "0"),
    Tagged(GroupTitleKey, "News")]

  lemma DwEnglishLogoWellFormed()
    ensures WellFormed(DwEnglishTags[4])
  {
  }

  lemma DwEnglishNamesWellFormed()
    ensures WellFormed(DwEnglishTags[0]) && WellFormed(DwEnglishTags[1])
  {
    assert WellFormed(DwEnglishTags[0]);
  }

  lemma DwEnglishHeadWellFormed()
    ensures forall i :: 0 <= i < 4 ==> WellFormed(DwEnglishTags[i])
  {
    DwEnglishNamesWellFormed();
    assert WellFormed(DwEnglishTags[2]);
    assert WellFormed(DwEnglishTags[3]);
  }

  lemma DwEnglishRestWellFormed()
    ensures forall i :: 5 <= i < 8 ==> WellFormed(DwEnglishTags[i])
  {
    assert WellFormed(DwEnglishTags[5]);
    assert WellFormed(DwEnglishTags[6]);
    assert WellFormed(DwEnglishTags[7]);
  }

  lemma DwEnglishWellFormed()
    ensures AllWellFormed(DwEnglishTags)
  {
    DwEnglishHeadWellFormed();
    DwEnglishLogoWellFormed();
    DwEnglishRestWellFormed();
  }

  function Last(v: string): char
    requires v != []
  {
    v[|v| - 1]
  }

  /** A value whose last character is not `=` ends with no `key=`. */
  lemma NoEqualsEnd(v: string, key: string)
    requires v == [] || Last(v) != '='
    ensures !EndsWith(v, key + "=")
  {
    if |key + "="| <= |v| {
      assert v[|v| - |key| - 1..][|key|] == v[|v| - 1];
    }
  }

  lemma DwEnglishValuesPlain()
    ensures forall i :: 0 <= i < |DwEnglishTags| ==> DwEnglishTags[i].value != [] && Last(DwEnglishTags[i].value) != '='
  {
  }

  lemma DwEnglishKeysApart()
    ensures forall k, i :: k in AttributeKeys && 0 <= i < |DwEnglishTags| ==>
              DwEnglishTags[i].key == k || !EndsWith(DwEnglishTags[i].key, k)
  {
  }

  lemma DwEnglishValuesApart()
    ensures forall k, i :: k in AttributeKeys && 0 <= i < |DwEnglishTags| ==>
              !EndsWith(DwEnglishTags[i].value, k + "=")
  {
    DwEnglishValuesPlain();
    forall k, i | k in AttributeKeys && 0 <= i < |DwEnglishTags|
      ensures !EndsWith(DwEnglishTags[i].value, k + "=")
    {
      NoEqualsEnd(DwEnglishTags[i].value, k);
    }
  }

  lemma DwEnglishDistinguishable()
    ensures forall k :: k in AttributeKeys ==> Distinguishable(DwEnglishTags, k)
  {
    DwEnglishKeysApart();
    DwEnglishValuesApart();
  }

  lemma DwEnglishKeys()
    ensures forall k :: k in AttributeKeys ==> Distinguishable(DwEnglishTags, k)
    ensures DistinctKeys(DwEnglishTags)
  {
    DwEnglishDistinguishable();
  }

  /** The "DW English" line is a written line whatever quote-free text follows its tags. */
  lemma DwEnglishWritten(tail: string)
    requires QuoteFree(tail)
    ensures WrittenLine(DwEnglishHead, DwEnglishTags, tail)
  {
    DwEnglishWellFormed();
    DwEnglishKeys();
  }

  /** The value each attribute key reads on the "DW English" line. */
  lemma DwEnglishLookup()
    ensures Lookup(DwEnglishTags, NameKey) == Some("DWEnglish.de")
    ensures Lookup(DwEnglishTags, IdKey) == Some("DWEnglish.de")
    ensures Lookup(DwEnglishTags, CountryKey) == Some("INT")
    ensures Lookup(DwEnglishTags, LanguageKey) == Some("English")
    ensures Lookup(DwEnglishTags, LogoKey) == Some("https://i.imgur.com/A1xzjOI.png")
    ensures Lookup(DwEnglishTags, ChannelNumberKey) == Some("1")
    ensures Lookup(DwEnglishTags, ShiftKey) == Some("0")
    ensures Lookup(DwEnglishTags, GroupTitleKey) == Some("News")
  {
    DwEnglishKeys();
    LookupDistinct(DwEnglishTags, DwEnglishTags[0]);
    LookupDistinct(DwEnglishTags, DwEnglishTags[1]);
    LookupDistinct(DwEnglishTags, DwEnglishTags[2]);
    LookupDistinct(DwEnglishTags, DwEnglishTags[3]);
    LookupDistinct(DwEnglishTags, DwEnglishTags[4]);
    LookupDistinct(DwEnglishTags, DwEnglishTags[5]);
    LookupDistinct(DwEnglishTags, DwEnglishTags[6]);
    LookupDistinct(DwEnglishTags, DwEnglishTags[7]);
  }
}
