/**
 * `VideoExtractorEngine._clean_url`: trims the input, rewrites YouTube short
 * links, Shorts links and watch links to the canonical watch URL, and makes
 * sure the result carries a scheme.
 */
module UrlCleaning {
  import opened Optional
  import opened Text

  const WatchPrefix := "https://www.youtube.com/watch?v="
  const ShortLinkMarker := "youtu.be/"
  const ShortsMarker := "youtube.com/shorts/"
  const WatchMarker := "youtube.com/watch"

  /** The characters of `'\'" \t\n\r'`, the argument of the second `strip`. */
  predicate IsQuoteOrSpace(c: char) {
    c == '\'' || c == '"' || c == ' ' || c == '\t' || c == '\n' || c == '\r'
  }

  /**
   * The input after `url.strip()` followed by `url.strip('\'" \t\n\r')`: a
   * slice of the input with only whitespace and quotes removed around it, and
   * no quote or blank left at either end.
   */
  function Trimmed(url: string): (r: string)
    ensures r == "" || (!IsQuoteOrSpace(r[0]) && !IsQuoteOrSpace(r[|r| - 1]))
  {
    Strip(StripSpace(url), IsQuoteOrSpace)
  }

  /** The trimmed URL is a slice of the input with only whitespace and quotes removed around it. */
  lemma TrimmedSlice(url: string)
    ensures exists i :: StrippedAt(url, IsTrimChar, Trimmed(url), i)
  {
    ComposeStrips(url, StripSpace(url), Trimmed(url));
  }

  /** A character one of the two strips of `_clean_url` removes. */
  predicate IsTrimChar(c: char) {
    IsPyWhitespace(c) || IsQuoteOrSpace(c)
  }

  /** Stripping whitespace and then quotes removes only characters of either kind. */
  lemma ComposeStrips(url: string, t: string, r: string)
    requires exists i :: StrippedAt(url, IsPyWhitespace, t, i)
    requires exists j :: StrippedAt(t, IsQuoteOrSpace, r, j)
    ensures exists k :: StrippedAt(url, IsTrimChar, r, k)
  {
    var i :| StrippedAt(url, IsPyWhitespace, t, i);
    var j :| StrippedAt(t, IsQuoteOrSpace, r, j);
    forall k | 0 <= k < i + j
      ensures IsTrimChar(url[k])
    {
      if k >= i {
        assert url[k] == t[k - i];
      }
    }
    forall k | i + j + |r| <= k < |url|
      ensures IsTrimChar(url[k])
    {
      if k < i + |t| {
        assert url[k] == t[k - i];
      }
    }
    forall m | 0 <= m < |r|
      ensures r[m] == url[i + j + m]
    {
      assert r[m] == t[j + m];
    }
    assert StrippedAt(url, IsTrimChar, r, i + j);
  }

  /**
   * `s.split(marker)[1].split('?')[0].split('&')[0]`: the id that follows a
   * short-link marker, the start of the segment after it up to the first `?`
   * or `&`.
   */
  function ShortLinkId(s: string, marker: string): (r: string)
    requires Contains(s, marker)
    ensures var seg := Segment(s, marker); |r| <= |seg| && r == seg[..|r|] && IsIdCut(seg, |r|)
  {
    IdCut(Segment(s, marker));
    Before(Before(Before(After(s, marker), marker), "?"), "&")
  }

  /**
   * The query `urllib.parse.urlparse` finds: once the `#fragment` is cut off,
   * the text after the first `?`, or nothing when there is no `?`.
   */
  function QueryOf(s: string): (q: string)
    ensures CharsWithin(q, s)
    ensures var head := Before(s, "#");
      Contains(head, "?") ==> head == Before(head, "?") + "?" + q
    ensures !Contains(Before(s, "#"), "?") ==> q == ""
  {
    var head := Before(s, "#");
    if Contains(head, "?") then
      BeforeSepAfter(head, "?");
      SuffixChars(head, After(head, "?"));
      PrefixChars(s, head);
      WithinTrans(After(head, "?"), head, s);
      After(head, "?")
    else ""
  }

  /** `q.split('&')`: the fields of a query, in order. */
  function Fields(q: string): (fs: seq<string>)
    ensures |fs| >= 1
    ensures forall k :: 0 <= k < |fs| ==> '&' !in fs[k] && CharsWithin(fs[k], q)
    decreases |q|
  {
    var first := Before(q, "&");
    BeforeChar(q, '&');
    PrefixChars(q, first);
    if Contains(q, "&") then
      var rest := After(q, "&");
      SuffixChars(q, rest);
      FieldsWithin(Fields(rest), rest, q);
      [first] + Fields(rest)
    else [first]
  }

  lemma FieldsWithin(fs: seq<string>, rest: string, q: string)
    requires forall k :: 0 <= k < |fs| ==> CharsWithin(fs[k], rest)
    requires CharsWithin(rest, q)
    ensures forall k :: 0 <= k < |fs| ==> CharsWithin(fs[k], q)
  {
    forall k | 0 <= k < |fs| ensures CharsWithin(fs[k], q) {
      WithinTrans(fs[k], rest, q);
    }
  }

  /** The fields joined back with `&`. */
  function JoinFields(fs: seq<string>): string
    requires |fs| >= 1
  {
    if |fs| == 1 then fs[0] else fs[0] + "&" + JoinFields(fs[1..])
  }

  /** Splitting a query at `&` loses nothing: joining the fields gives it back. */
  lemma {:induction false} FieldsJoin(q: string)
    ensures JoinFields(Fields(q)) == q
    decreases |q|
  {
    if Contains(q, "&") {
      BeforeSepAfter(q, "&");
      FieldsJoin(After(q, "&"));
    }
  }

  /** Fields free of `&` joined with `&` split back into the same fields. */
  lemma {:induction false} JoinFieldsSplit(fs: seq<string>)
    requires |fs| >= 1 && forall k :: 0 <= k < |fs| ==> '&' !in fs[k]
    ensures Fields(JoinFields(fs)) == fs
    decreases |fs|
  {
    if |fs| == 1 {
      CharNotContained(fs[0], '&');
    } else {
      JoinFieldsSplit(fs[1..]);
      SplitFirst(fs[0], JoinFields(fs[1..]), '&');
    }
  }

  /**
   * A field `parse_qs` files under the name `v` with a value it keeps: its
   * name (the text before the first `=`) is `v` and its value is not blank.
   */
  predicate IsVField(f: string) {
    |f| > 2 && f[..2] == "v="
  }

  /** The position of the first `v` field at or after `from`. */
  function FirstVField(fs: seq<string>, from: nat): (r: Option<nat>)
    requires from <= |fs|
    ensures r.Some? ==> from <= r.value < |fs| && IsVField(fs[r.value])
    ensures r.Some? ==> forall j :: from <= j < r.value ==> !IsVField(fs[j])
    ensures r.None? ==> forall j :: from <= j < |fs| ==> !IsVField(fs[j])
    decreases |fs| - from
  {
    if from == |fs| then None
    else if IsVField(fs[from]) then Some(from)
    else FirstVField(fs, from + 1)
  }

  /**
   * `parse_qs(query)['v'][0]`: the value of the first `&`-separated field
   * that reads `v=` followed by a non-blank value (blank values are dropped);
   * `None` exactly when no field does.
   */
  function LookupV(q: string): (r: Option<string>)
    ensures r.Some? ==> r.value != "" && '&' !in r.value && CharsWithin(r.value, q)
    ensures r.Some? ==>
      exists k :: (0 <= k < |Fields(q)| && Fields(q)[k] == "v=" + r.value
                   && forall j :: 0 <= j < k ==> !IsVField(Fields(q)[j]))
    ensures r.None? ==> forall k :: 0 <= k < |Fields(q)| ==> !IsVField(Fields(q)[k])
  {
    var fs := Fields(q);
    match FirstVField(fs, 0)
    case None => None
    case Some(k) =>
      VFieldValue(fs[k], q);
      Some(fs[k][2..])
  }

  lemma VFieldValue(f: string, q: string)
    requires IsVField(f) && '&' !in f && CharsWithin(f, q)
    ensures var x := f[2..]; x != "" && '&' !in x && CharsWithin(x, q) && f == "v=" + x
  {
    var x := f[2..];
    assert f == f[..2] + x;
    assert forall i :: 0 <= i < |x| ==> x[i] == f[i + 2];
  }

  /** Every character of `a` occurs in `b`. */
  predicate CharsWithin(a: string, b: string) {
    forall i :: 0 <= i < |a| ==> a[i] in b
  }

  /** Prepends `https://` unless the URL already starts with `http://` or `https://`. */
  function EnsureScheme(u: string): (r: string)
    ensures StartsWith(r, "http://") || StartsWith(r, "https://")
    ensures StartsWith(u, "http://") || StartsWith(u, "https://") ==> r == u
    ensures !(StartsWith(u, "http://") || StartsWith(u, "https://")) ==> r == "https://" + u
  {
    if StartsWith(u, "http://") || StartsWith(u, "https://") then u else "https://" + u
  }

  /**
   * The YouTube rewrites applied to the trimmed URL, before the scheme is
   * ensured: a URL is either kept or replaced by a canonical watch URL, and one
   * without YouTube markers is kept.
   */
  function Rewrite(u: string): (r: string)
    ensures r == u || StartsWith(r, WatchPrefix)
    ensures NoYouTubeMarker(u) ==> r == u
  {
    if Contains(u, ShortLinkMarker) then WatchPrefix + ShortLinkId(u, ShortLinkMarker)
    else if Contains(u, ShortsMarker) then WatchPrefix + ShortLinkId(u, ShortsMarker)
    else if Contains(u, WatchMarker) && Contains(u, "v=") then
      match LookupV(QueryOf(u))
      case Some(id) => WatchPrefix + id
      case None => u
    else u
  }

  /**
   * `_clean_url`: empty input gives the empty string; every other input gives a
   * URL that starts with `http://` or `https://`.
   */
  function CleanUrl(url: string): (r: string)
    ensures r == "" <==> url == ""
    ensures url != "" ==> StartsWith(r, "http://") || StartsWith(r, "https://")
  {
    if url == "" then "" else EnsureScheme(Rewrite(Trimmed(url)))
  }

  /** The text after the first `marker` in `s`, up to the next `marker` (`s.split(marker)[1]`). */
  function Segment(s: string, marker: string): string
    requires Contains(s, marker)
  {
    Before(After(s, marker), marker)
  }

  /**
   * A `youtu.be/` link becomes exactly the canonical watch URL of its id, where
   * the id is the start of the text after the marker, holds no `?` and no `&`,
   * and stops at the first `?` or `&`, or where the segment ends.
   */
  lemma ShortLinkBecomesWatchUrl(url: string)
    requires Contains(Trimmed(url), ShortLinkMarker)
    ensures var seg := Segment(Trimmed(url), ShortLinkMarker);
            exists n :: 0 <= n <= |seg| && CleanUrl(url) == WatchPrefix + seg[..n] && IsIdCut(seg, n)
  {
    var u := Trimmed(url);
    IdCut(Segment(u, ShortLinkMarker));
    StartsWithWatchPrefix(ShortLinkId(u, ShortLinkMarker));
  }

  /**
   * The same rewrite for a `youtube.com/shorts/` link that holds no `youtu.be/`
   * (the code looks for that marker first).
   */
  lemma ShortsLinkBecomesWatchUrl(url: string)
    requires !Contains(Trimmed(url), ShortLinkMarker) && Contains(Trimmed(url), ShortsMarker)
    ensures var seg := Segment(Trimmed(url), ShortsMarker);
            exists n :: 0 <= n <= |seg| && CleanUrl(url) == WatchPrefix + seg[..n] && IsIdCut(seg, n)
  {
    var u := Trimmed(url);
    IdCut(Segment(u, ShortsMarker));
    StartsWithWatchPrefix(ShortLinkId(u, ShortsMarker));
  }

  /** `seg[..n]` is the id: free of `?` and `&`, and ending at the first of them or at the end. */
  predicate IsIdCut(seg: string, n: nat)
    requires n <= |seg|
  {
    && (forall i :: 0 <= i < n ==> seg[i] != '?' && seg[i] != '&')
    && (n == |seg| || seg[n] == '?' || seg[n] == '&')
  }

  lemma IdCut(seg: string)
    ensures var id := Before(Before(seg, "?"), "&");
            |id| <= |seg| && id == seg[..|id|] && IsIdCut(seg, |id|)
  {
    var x := Before(seg, "?");
    var id := Before(x, "&");
    BeforeChar(seg, '?');
    BeforeChar(x, '&');
    assert forall i :: 0 <= i < |id| ==> id[i] == x[i] && x[i] in x;
  }

  lemma StartsWithWatchPrefix(id: string)
    ensures EnsureScheme(WatchPrefix + id) == WatchPrefix + id
  {
    assert (WatchPrefix + id)[..8] == "https://";
  }

  /**
   * A watch URL (and no short link) whose query has a non-blank `v` field is
   * reduced to the canonical watch URL of the first such value alone, so every
   * other query parameter is dropped.
   */
  lemma WatchUrlKeepsOnlyV(url: string)
    requires var u := Trimmed(url);
      !Contains(u, ShortLinkMarker) && !Contains(u, ShortsMarker)
      && Contains(u, WatchMarker) && Contains(u, "v=") && LookupV(QueryOf(u)).Some?
    ensures CleanUrl(url) == WatchPrefix + LookupV(QueryOf(Trimmed(url))).value
  {
    var u := Trimmed(url);
    var id := LookupV(QueryOf(u)).value;
    WatchRewrite(u);
    StartsWithWatchPrefix(id);
    CleanUrlOfTrimmed(url, u, WatchPrefix + id);
  }

  /**
   * A watch link whose `v` value is a canonical id is cleaned once and for
   * all: cleaning the result again leaves it as it is.
   */
  lemma WatchUrlIdempotent(url: string)
    requires var u := Trimmed(url);
      !Contains(u, ShortLinkMarker) && !Contains(u, ShortsMarker)
      && Contains(u, WatchMarker) && Contains(u, "v=") && LookupV(QueryOf(u)).Some?
      && CanonicalId(LookupV(QueryOf(u)).value)
    ensures CleanUrl(CleanUrl(url)) == CleanUrl(url)
  {
    WatchUrlKeepsOnlyV(url);
    WatchUrlFixedPoint(LookupV(QueryOf(Trimmed(url))).value);
  }

  /**
   * The canonical watch URL of an id is left as it is by cleaning, as long as
   * the id holds no `#` and no `&`, names no short link, and does not end in
   * a character the trimming strips.
   */
  lemma {:induction false} WatchUrlFixedPoint(id: string)
    requires CanonicalId(id)
    ensures CleanUrl(WatchPrefix + id) == WatchPrefix + id
  {
    WatchPrefixTrimmed(id);
    WatchUrlRewrite(id);
    StartsWithWatchPrefix(id);
    FixedByParts(WatchPrefix + id);
  }

  /**
   * An id whose watch URL cleaning keeps: non-empty, with no `#` and no `&`,
   * naming no short link, and not ending in a character the trimming strips.
   */
  predicate CanonicalId(id: string) {
    && id != "" && '#' !in id && '&' !in id
    && !Contains(id, ShortLinkMarker) && !Contains(id, ShortsMarker)
    && !IsPyWhitespace(id[|id| - 1]) && !IsQuoteOrSpace(id[|id| - 1])
  }

  /** A URL that trimming, the rewrites and the scheme check all leave alone is a fixed point. */
  lemma FixedByParts(w: string)
    requires |w| > 0 && Trimmed(w) == w && Rewrite(w) == w && EnsureScheme(w) == w
    ensures CleanUrl(w) == w
  {
  }

  lemma WatchUrlRewrite(id: string)
    requires CanonicalId(id)
    ensures Rewrite(WatchPrefix + id) == WatchPrefix + id
  {
    var w := WatchPrefix + id;
    NoMarkerAfterWatchPrefix(id, ShortLinkMarker);
    NoMarkerAfterWatchPrefix(id, ShortsMarker);
    WatchMarkersPresent(id);
    WatchLookup(id);
    WatchRewrite(w);
  }

  lemma WatchLookup(id: string)
    requires id != "" && '#' !in id && '&' !in id
    ensures LookupV(QueryOf(WatchPrefix + id)) == Some(id)
  {
    WatchQuery(id);
    LookupOwnV(id);
  }

  lemma WatchPrefixTrimmed(id: string)
    requires CanonicalId(id)
    ensures Trimmed(WatchPrefix + id) == WatchPrefix + id
  {
    var w := WatchPrefix + id;
    assert w[0] == 'h' && w[|w| - 1] == id[|id| - 1];
    AlreadyTrimmed(w);
  }

  lemma WatchMarkersPresent(id: string)
    ensures Contains(WatchPrefix + id, WatchMarker) && Contains(WatchPrefix + id, "v=")
  {
    var w := WatchPrefix + id;
    assert w[12..12 + |WatchMarker|] == WatchMarker;
    assert MatchAt(w, WatchMarker, 12);
    assert w[30..32] == "v=";
    assert MatchAt(w, "v=", 30);
  }

  /** The query of a watch URL is `v=` and the id. */
  lemma WatchQuery(id: string)
    requires '#' !in id
    ensures QueryOf(WatchPrefix + id) == "v=" + id
  {
    var w := WatchPrefix + id;
    var a := "https://www.youtube.com/watch";
    WatchPrefixAroundMark();
    Regroup2(a, ['?'], "v=", id);
    CharNotContained(w, '#');
    SplitFirst(a, "v=" + id, '?');
  }

  /** A query that is the single field `v=` and a value yields that value. */
  lemma LookupOwnV(id: string)
    requires id != "" && '&' !in id
    ensures LookupV("v=" + id) == Some(id)
  {
    var f := "v=" + id;
    assert '&' !in f;
    JoinFieldsSplit([f]);
    assert Fields(f) == [f];
    assert IsVField(f) && f[2..] == id;
  }

  /** A short-link marker after the watch prefix can only come from the text behind it. */
  lemma NoMarkerAfterWatchPrefix(u: string, pat: string)
    requires pat == ShortLinkMarker || pat == ShortsMarker
    requires !Contains(u, pat)
    ensures !Contains(WatchPrefix + u, pat)
  {
    var h, t := "https://www.", "outube.com/watch?v=";
    WatchPrefixAroundY();
    Regroup(h, "y", t, u);
    NoMatchBehindPrefix(t, u, pat);
    NoMatchAtY(t + u, pat);
    NoMatchBehindPrefix(h, "y" + (t + u), pat);
  }

  /** The watch prefix around its only `y`, the first character of both short-link markers. */
  lemma WatchPrefixAroundY()
    ensures WatchPrefix == "https://www." + "y" + "outube.com/watch?v="
  {
  }

  /** The watch prefix around its only `?`; it holds no `#`. */
  lemma WatchPrefixAroundMark()
    ensures WatchPrefix == "https://www.youtube.com/watch" + ['?'] + "v="
    ensures '?' !in "https://www.youtube.com/watch" && '#' !in WatchPrefix
  {
    WatchPrefixMarks();
  }

  lemma WatchPrefixMarks()
    ensures '?' !in "https://www.youtube.com/watch" && '#' !in WatchPrefix
  {
  }

  lemma Regroup(a: string, b: string, c: string, d: string)
    ensures a + b + c + d == a + (b + (c + d))
  {
  }

  lemma Regroup2(a: string, b: string, c: string, d: string)
    ensures a + b + c + d == a + b + (c + d)
  {
  }

  lemma MatchedChar(s: string, pat: string, i: nat, k: nat)
    requires MatchAt(s, pat, i) && k < |pat|
    ensures s[i + k] == pat[k]
  {
    assert s[i..i + |pat|][k] == s[i + k];
  }

  lemma NoMatchAtY(v: string, pat: string)
    requires pat == ShortLinkMarker || pat == ShortsMarker
    requires |v| >= 12 && v[4] == 'b' && v[11] == 'w'
    requires !Contains(v, pat)
    ensures !Contains("y" + v, pat)
  {
    var s := "y" + v;
    if Contains(s, pat) {
      var i := IndexOf(s, pat).value;
      if i >= 1 {
        MatchBehindPrefix("y", v, pat, i);
      } else if pat == ShortLinkMarker {
        MatchedChar(s, pat, 0, 5);
      } else {
        MatchedChar(s, pat, 0, 12);
      }
    }
  }

  lemma WatchRewrite(u: string)
    requires !Contains(u, ShortLinkMarker) && !Contains(u, ShortsMarker)
    requires Contains(u, WatchMarker) && Contains(u, "v=") && LookupV(QueryOf(u)).Some?
    ensures Rewrite(u) == WatchPrefix + LookupV(QueryOf(u)).value
  {
  }

  /** Once the trimmed URL is non-empty, the cleaned URL is its rewrite with the scheme ensured. */
  lemma CleanUrlOfTrimmed(url: string, u: string, w: string)
    requires u == Trimmed(url) && u != "" && w == Rewrite(u)
    ensures CleanUrl(url) == EnsureScheme(w)
  {
  }

  /** The characters of the cleaned URL come from the trimmed input or from the fixed text added. */
  lemma CleanUrlChars(url: string)
    ensures CharsWithin(CleanUrl(url), Trimmed(url) + WatchPrefix)
  {
    var u := Trimmed(url);
    var w := Rewrite(u);
    RewriteChars(u);
    if url != "" && !(StartsWith(w, "http://") || StartsWith(w, "https://")) {
      assert CleanUrl(url) == "https://" + w;
      SchemeChars(u);
      ConcatChars("https://", w, u + WatchPrefix);
    }
  }

  lemma SchemeChars(u: string)
    ensures CharsWithin("https://", u + WatchPrefix)
  {
    PrefixChars(WatchPrefix, "https://");
    WithinRight(u, WatchPrefix, "https://");
  }

  lemma RewriteChars(u: string)
    ensures CharsWithin(Rewrite(u), u + WatchPrefix)
  {
    PrefixChars(u + WatchPrefix, u);
    WithinRight(u, WatchPrefix, WatchPrefix);
    if Contains(u, ShortLinkMarker) {
      ShortLinkIdChars(u, ShortLinkMarker);
      WithinLeft(u, WatchPrefix, ShortLinkId(u, ShortLinkMarker));
      ConcatChars(WatchPrefix, ShortLinkId(u, ShortLinkMarker), u + WatchPrefix);
    } else if Contains(u, ShortsMarker) {
      ShortLinkIdChars(u, ShortsMarker);
      WithinLeft(u, WatchPrefix, ShortLinkId(u, ShortsMarker));
      ConcatChars(WatchPrefix, ShortLinkId(u, ShortsMarker), u + WatchPrefix);
    } else if Contains(u, WatchMarker) && Contains(u, "v=") && LookupV(QueryOf(u)).Some? {
      var id := LookupV(QueryOf(u)).value;
      WithinTrans(id, QueryOf(u), u);
      WithinLeft(u, WatchPrefix, id);
      ConcatChars(WatchPrefix, id, u + WatchPrefix);
    }
  }

  lemma ShortLinkIdChars(u: string, m: string)
    requires Contains(u, m)
    ensures CharsWithin(ShortLinkId(u, m), u)
  {
    var a := After(u, m);
    var b := Before(a, m);
    var c := Before(b, "?");
    var id := Before(c, "&");
    SuffixChars(u, a);
    PrefixChars(a, b);
    PrefixChars(b, c);
    PrefixChars(c, id);
    WithinTrans(id, c, b);
    WithinTrans(id, b, a);
    WithinTrans(id, a, u);
  }

  lemma WithinTrans(a: string, b: string, c: string)
    requires CharsWithin(a, b) && CharsWithin(b, c)
    ensures CharsWithin(a, c)
  {
    forall i | 0 <= i < |a| ensures a[i] in c {
      var j :| 0 <= j < |b| && b[j] == a[i];
    }
  }

  lemma WithinLeft(a: string, b: string, x: string)
    requires CharsWithin(x, a)
    ensures CharsWithin(x, a + b)
  {
    forall i | 0 <= i < |x| ensures x[i] in a + b {
      var j :| 0 <= j < |a| && a[j] == x[i];
      assert (a + b)[j] == a[j];
    }
  }

  lemma WithinRight(a: string, b: string, x: string)
    requires CharsWithin(x, b)
    ensures CharsWithin(x, a + b)
  {
    forall i | 0 <= i < |x| ensures x[i] in a + b {
      var j :| 0 <= j < |b| && b[j] == x[i];
      assert (a + b)[|a| + j] == b[j];
    }
  }

  lemma PrefixChars(s: string, r: string)
    requires |r| <= |s| && r == s[..|r|]
    ensures CharsWithin(r, s)
  {
    assert forall i :: 0 <= i < |r| ==> r[i] == s[i];
  }

  lemma SuffixChars(s: string, r: string)
    requires |r| <= |s| && r == s[|s| - |r|..]
    ensures CharsWithin(r, s)
  {
    assert forall i :: 0 <= i < |r| ==> r[i] == s[|s| - |r| + i];
  }

  lemma ConcatChars(a: string, b: string, c: string)
    requires CharsWithin(a, c) && CharsWithin(b, c)
    ensures CharsWithin(a + b, c)
  {
    forall i | 0 <= i < |a + b| ensures (a + b)[i] in c {
      if i < |a| { assert (a + b)[i] == a[i]; } else { assert (a + b)[i] == b[i - |a|]; }
    }
  }

  /**
   * Cleaning is not idempotent: a short link whose id is a single quote
   * character, as in `youtu.be/'?`, becomes the watch URL ending in that quote,
   * and cleaning that watch URL again strips the quote and so changes it.
   */
  lemma CleanUrlNotIdempotent(c: char)
    requires c == '\'' || c == '"'
    ensures CleanUrl(ShortLinkMarker + [c] + "?") == WatchPrefix + [c]
    ensures CleanUrl(WatchPrefix + [c]) != WatchPrefix + [c]
  {
    QuoteShortLink(c);
    QuoteCleanedAgain(c);
  }

  lemma QuoteCleanedAgain(c: char)
    requires c == '\'' || c == '"'
    ensures CleanUrl(WatchPrefix + [c]) != WatchPrefix + [c]
  {
    var r1 := WatchPrefix + [c];
    WatchPrefixEnds();
    QuoteStripped(WatchPrefix, c);
    QuoteNotInWatchPrefix(c);
    assert r1[|r1| - 1] == c;
    NotFixedPoint(r1);
  }

  /** The watch prefix begins with `h` and ends with `=`, which neither strip removes. */
  lemma WatchPrefixEnds()
    ensures WatchPrefix != [] && !IsPyWhitespace(WatchPrefix[0]) && !IsQuoteOrSpace(WatchPrefix[0])
    ensures !IsPyWhitespace(WatchPrefix[|WatchPrefix| - 1]) && !IsQuoteOrSpace(WatchPrefix[|WatchPrefix| - 1])
  {
    assert WatchPrefix[0] == 'h' && WatchPrefix[|WatchPrefix| - 1] == '=';
  }

  /** A URL whose last character cleaning could not produce is changed by cleaning. */
  lemma NotFixedPoint(r: string)
    requires r != [] && r[|r| - 1] !in Trimmed(r) + WatchPrefix
    ensures CleanUrl(r) != r
  {
    CleanUrlChars(r);
  }

  lemma QuoteNotInWatchPrefix(c: char)
    requires c == '\'' || c == '"'
    ensures c !in WatchPrefix + WatchPrefix
  {
    assert c !in WatchPrefix;
  }

  lemma QuoteShortLink(c: char)
    requires c == '\'' || c == '"'
    ensures CleanUrl(ShortLinkMarker + [c] + "?") == WatchPrefix + [c]
  {
    var s := ShortLinkMarker + [c] + "?";
    assert s[0] == 'y' && s[|s| - 1] == '?';
    AlreadyTrimmed(s);
    QuoteShortLinkId(c);
    assert Rewrite(s) == WatchPrefix + [c];
    StartsWithWatchPrefix([c]);
  }

  lemma QuoteShortLinkId(c: char)
    requires c == '\'' || c == '"'
    ensures var s := ShortLinkMarker + [c] + "?";
            Contains(s, ShortLinkMarker) && ShortLinkId(s, ShortLinkMarker) == [c]
  {
    var s := ShortLinkMarker + [c] + "?";
    assert s[0..9] == ShortLinkMarker;
    assert MatchAt(s, ShortLinkMarker, 0);
    var x := [c] + "?";
    assert After(s, ShortLinkMarker) == x;
    assert Before(x, ShortLinkMarker) == x;
    assert Before(x, "?") == [c] by {
      assert x[0..1] != "?" && x[1..2] == "?";
      assert IndexFrom(x, "?", 1) == Some(1);
      assert IndexOf(x, "?") == Some(1);
    }
    assert Before([c], "&") == [c] by {
      assert !MatchAt([c], "&", 0);
    }
  }

  /** A quote character after a string that ends in neither quote nor whitespace is stripped. */
  lemma QuoteStripped(p: string, c: char)
    requires p != [] && !IsPyWhitespace(p[0]) && !IsQuoteOrSpace(p[0])
    requires !IsPyWhitespace(p[|p| - 1]) && !IsQuoteOrSpace(p[|p| - 1])
    requires c == '\'' || c == '"'
    ensures Trimmed(p + [c]) == p
  {
    var r := p + [c];
    assert r[0] == p[0] && r[|r| - 1] == c && r[|r| - 2] == p[|p| - 1];
    StripKeeps(r, IsPyWhitespace);
    StripLast(r, IsQuoteOrSpace);
    assert r[..|r| - 1] == p;
  }

  /** None of the three YouTube markers occurs in `u`, so cleaning rewrites nothing. */
  predicate NoYouTubeMarker(u: string) {
    !Contains(u, ShortLinkMarker) && !Contains(u, ShortsMarker) && !Contains(u, WatchMarker)
  }

  /**
   * Off YouTube, cleaning is idempotent as long as the trimmed input does not
   * end in a Python whitespace character that the quote strip left exposed
   * (`'\v'` in `"'\v'"` is such a character: the second pass strips it).
   */
  lemma CleanUrlIdempotentOffYouTube(url: string)
    requires var u := Trimmed(url);
      NoYouTubeMarker(u)
      && (u == "" || !IsPyWhitespace(u[|u| - 1]))
    ensures CleanUrl(CleanUrl(url)) == CleanUrl(url)
  {
    if url != "" {
      IdempotentStep(url);
    }
  }

  /** The non-empty case: cleaning yields the scheme-completed trimmed URL, which cleaning keeps. */
  lemma IdempotentStep(url: string)
    requires url != ""
    requires var u := Trimmed(url);
      NoYouTubeMarker(u)
      && (u == "" || !IsPyWhitespace(u[|u| - 1]))
    ensures CleanUrl(url) == EnsureScheme(Trimmed(url))
    ensures CleanUrl(EnsureScheme(Trimmed(url))) == EnsureScheme(Trimmed(url))
  {
    var u := Trimmed(url);
    CleanUrlOffYouTube(url);
    TrimmedLast(url, u);
    EnsureSchemeIsFixed(u);
  }

  /** Off YouTube, cleaning only trims and ensures the scheme. */
  lemma CleanUrlOffYouTube(url: string)
    requires url != ""
    requires var u := Trimmed(url);
      NoYouTubeMarker(u)
    ensures CleanUrl(url) == EnsureScheme(Trimmed(url))
  {
    assert Rewrite(Trimmed(url)) == Trimmed(url);
  }

  /** Off YouTube, the scheme-completed form of a trimmed URL is left as it is. */
  lemma EnsureSchemeIsFixed(u: string)
    requires NoYouTubeMarker(u)
    requires u == "" || (!IsPyWhitespace(u[|u| - 1]) && !IsQuoteOrSpace(u[|u| - 1]))
    ensures CleanUrl(EnsureScheme(u)) == EnsureScheme(u)
  {
    if StartsWith(u, "http://") || StartsWith(u, "https://") {
      SchemedIsFixed(u);
    } else {
      PrefixedIsFixed(u);
    }
  }

  /** A URL with a scheme, no YouTube marker and ends that survive trimming is left as it is. */
  lemma SchemedIsFixed(r: string)
    requires StartsWith(r, "http://") || StartsWith(r, "https://")
    requires NoYouTubeMarker(r)
    requires !IsPyWhitespace(r[|r| - 1]) && !IsQuoteOrSpace(r[|r| - 1])
    ensures CleanUrl(r) == r
  {
    assert r[0] == 'h' by { assert r[..4] == "http"; }
    AlreadyTrimmed(r);
    CleanUrlFixedPoint(r);
  }

  /** The same for the `https://` form of a URL without a scheme. */
  lemma PrefixedIsFixed(u: string)
    requires NoYouTubeMarker(u)
    requires u == "" || (!IsPyWhitespace(u[|u| - 1]) && !IsQuoteOrSpace(u[|u| - 1]))
    ensures CleanUrl("https://" + u) == "https://" + u
  {
    var r := "https://" + u;
    NoMatchBehindPrefix("https://", u, ShortLinkMarker);
    NoMatchBehindPrefix("https://", u, ShortsMarker);
    NoMatchBehindPrefix("https://", u, WatchMarker);
    assert r[..8] == "https://";
    if u != "" {
      assert r[|r| - 1] == u[|u| - 1];
    }
    SchemedIsFixed(r);
  }

  /** A trimmed URL with a scheme and no YouTube marker is left as it is. */
  lemma CleanUrlFixedPoint(r: string)
    requires StartsWith(r, "http://") || StartsWith(r, "https://")
    requires Trimmed(r) == r
    requires NoYouTubeMarker(r)
    ensures CleanUrl(r) == r
  {
  }

  /** The trimmed input neither starts nor ends with one of the quote-strip characters. */
  lemma TrimmedEnds(url: string)
    ensures var u := Trimmed(url); u == "" || (!IsQuoteOrSpace(u[0]) && !IsQuoteOrSpace(u[|u| - 1]))
  {
    var s := StripSpace(url);
    var u := Strip(s, IsQuoteOrSpace);
    assert u == [] || (!IsQuoteOrSpace(u[0]) && !IsQuoteOrSpace(u[|u| - 1]));
  }

  /** The trimmed input ends in neither a quote-strip character nor, when the caller rules it out, whitespace. */
  lemma TrimmedLast(url: string, u: string)
    requires u == Trimmed(url)
    requires u == "" || !IsPyWhitespace(u[|u| - 1])
    ensures u == "" || (!IsPyWhitespace(u[|u| - 1]) && !IsQuoteOrSpace(u[|u| - 1]))
  {
    TrimmedEnds(url);
  }

  /** A string whose ends survive both strips is its own trimmed form. */
  lemma AlreadyTrimmed(u: string)
    requires u == "" || (!IsPyWhitespace(u[0]) && !IsPyWhitespace(u[|u| - 1]))
    requires u == "" || (!IsQuoteOrSpace(u[0]) && !IsQuoteOrSpace(u[|u| - 1]))
    ensures Trimmed(u) == u
  {
    StripKeeps(u, IsPyWhitespace);
    StripKeeps(u, IsQuoteOrSpace);
  }

  /** A pattern whose first character is not in `p` occurs in `p + u` only if it occurs in `u`. */
  lemma NoMatchBehindPrefix(p: string, u: string, pat: string)
    requires pat != [] && pat[0] !in p && !Contains(u, pat)
    ensures !Contains(p + u, pat)
  {
    if Contains(p + u, pat) {
      var i := IndexOf(p + u, pat).value;
      if i >= |p| {
        MatchBehindPrefix(p, u, pat, i);
      }
    }
  }

  /** A match that starts after the prefix is a match in `u`. */
  lemma MatchBehindPrefix(p: string, u: string, pat: string, i: nat)
    requires i >= |p| && MatchAt(p + u, pat, i)
    ensures MatchAt(u, pat, i - |p|)
  {
    var j := i - |p|;
    forall k | 0 <= k < |pat| ensures u[j..j + |pat|][k] == pat[k] {
      assert (p + u)[i..i + |pat|][k] == pat[k];
    }
  }
}
