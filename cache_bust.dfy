/**
 * The cache-busting build step: a version string made from the build's
 * timestamp, and the two global regular-expression replacements that write it
 * into the references to the stylesheet and the script in the page.
 *
 * A replacement `html.replace(/marker[^"]+/g, replacement)` is modelled as a
 * scan from left to right: at each position where the marker starts and is
 * followed by at least one character other than `"`, the marker and the
 * longest run of non-`"` characters after it are replaced, and the scan goes
 * on after the run; at any other position one character is copied.
 */
module CacheBust {

  predicate IsDigit(c: char)
  {
    '0' <= c <= '9'
  }

  predicate AllDigits(s: string)
  {
    forall i :: 0 <= i < |s| ==> IsDigit(s[i])
  }

  /** The digit character for `d`. */
  function Digit(d: nat): (c: char)
    requires d < 10
    ensures IsDigit(c) && c as int - '0' as int == d
  {
    (d + '0' as int) as char
  }

  /** The number a string of digits reads as, most significant digit first. */
  function Value(s: string): nat
    requires AllDigits(s)
  {
    if s == [] then 0 else 10 * Value(s[..|s| - 1]) + (s[|s| - 1] as int - '0' as int)
  }

  /** The decimal numeral of `n`, as a template literal writes a non-negative integer. */
  function Decimal(n: nat): (s: string)
    ensures |s| > 0 && AllDigits(s)
  {
    if n < 10 then [Digit(n)] else Decimal(n / 10) + [Digit(n % 10)]
  }

  /** The numeral reads back as the number that was written. */
  lemma {:induction false} DecimalValue(n: nat)
    ensures Value(Decimal(n)) == n
  {
    if n >= 10 {
      DecimalValue(n / 10);
      var s := Decimal(n);
      assert s[..|s| - 1] == Decimal(n / 10);
    }
  }

  /** The numeral has no leading zero: only zero itself starts with `0`. */
  lemma {:induction false} DecimalCanonical(n: nat)
    ensures Decimal(n)[0] == '0' <==> n == 0
  {
    if n >= 10 {
      DecimalCanonical(n / 10);
      assert Decimal(n)[0] == Decimal(n / 10)[0];
    }
  }

  /** The build's version, `v` followed by the timestamp. */
  function Version(timestamp: nat): (v: string)
    ensures |v| > 1 && v[0] == 'v' && AllDigits(v[1..]) && Value(v[1..]) == timestamp
  {
    var v := "v" + Decimal(timestamp);
    assert v[1..] == Decimal(timestamp);
    DecimalValue(timestamp);
    v
  }

  /** Distinct timestamps give distinct versions, and a version never holds `=` or `"`. */
  lemma VersionSpec(t1: nat, t2: nat)
    ensures Version(t1) == Version(t2) <==> t1 == t2
    ensures '=' !in Version(t1) && '"' !in Version(t1)
  {
    if Version(t1) == Version(t2) {
      assert Decimal(t1) == Version(t1)[1..];
      assert Decimal(t2) == Version(t2)[1..];
      DecimalValue(t1);
      DecimalValue(t2);
    }
    NoSeparators(Decimal(t1));
  }

  lemma NoSeparators(s: string)
    requires AllDigits(s)
    ensures '=' !in s && '"' !in s
  {
  }

  const StylesMarker: string := "styles.css?v="
  const AppMarker: string := "app.js?v="

  /** What the first replacement writes in place of each match. */
  function StylesReplacement(timestamp: nat): (r: string)
    ensures r == StylesMarker[..|StylesMarker| - 1] + Decimal(timestamp)
    ensures Plain(r)
  {
    VersionSpec(timestamp, timestamp);
    "styles.css?" + Version(timestamp)
  }

  /** What the second replacement writes in place of each match. */
  function AppReplacement(timestamp: nat): (r: string)
    ensures r == AppMarker[..|AppMarker| - 1] + Decimal(timestamp)
    ensures Plain(r)
  {
    VersionSpec(timestamp, timestamp);
    "app.js?" + Version(timestamp)
  }

  /** The shape of both markers: not empty, ending in `=`, without `"`. */
  predicate Marker(m: string)
  {
    |m| > 0 && m[|m| - 1] == '=' && '"' !in m
  }

  /** The shape of both replacements: not empty, without `=` or `"`. */
  predicate Plain(r: string)
  {
    |r| > 0 && '=' !in r && '"' !in r
  }

  /** The pattern `marker[^"]+` matches at position `i` of `s`. */
  predicate MatchAt(s: string, i: nat, m: string)
  {
    i + |m| < |s| && s[i..i + |m|] == m && s[i + |m|] != '"'
  }

  /** No position of `s` starts a match. */
  predicate Clean(s: string, m: string)
  {
    forall i :: 0 <= i < |s| ==> !MatchAt(s, i, m)
  }

  /** The length of the run of non-`"` characters starting at `j`: the greedy `[^"]+`. */
  function RunLen(s: string, j: nat): (n: nat)
    requires j <= |s|
    ensures j + n <= |s|
    ensures forall k :: j <= k < j + n ==> s[k] != '"'
    ensures j + n == |s| || s[j + n] == '"'
    decreases |s| - j
  {
    if j == |s| || s[j] == '"' then 0 else 1 + RunLen(s, j + 1)
  }

  /** The end of the match at `f`: the marker and the greedy run after it. */
  function MatchEnd(s: string, f: nat, m: string): (k: nat)
    requires MatchAt(s, f, m)
    ensures f + |m| < k <= |s|
    ensures k == |s| || s[k] == '"'
  {
    f + |m| + RunLen(s, f + |m|)
  }

  /** Every match replaced by `r`, scanning from the left, the text in between copied. */
  function ReplaceAll(s: string, m: string, r: string): string
    decreases |s|
  {
    if s == [] then []
    else if MatchAt(s, 0, m) then r + ReplaceAll(s[MatchEnd(s, 0, m)..], m, r)
    else [s[0]] + ReplaceAll(s[1..], m, r)
  }

  /**
   * Every `"` of the page survives a replacement whose marker and replacement
   * hold none: the greedy run stops before the quote that closes the attribute.
   */
  lemma {:induction false} ReplaceAllKeepsQuotes(s: string, m: string, r: string)
    requires '"' !in m && '"' !in r
    ensures multiset(ReplaceAll(s, m, r))['"'] == multiset(s)['"']
    decreases |s|
  {
    if s == [] {
    } else if MatchAt(s, 0, m) {
      var k := MatchEnd(s, 0, m);
      MatchNoQuote(s, m);
      assert s == s[..k] + s[k..];
      ReplaceAllKeepsQuotes(s[k..], m, r);
    } else {
      assert s == [s[0]] + s[1..];
      ReplaceAllKeepsQuotes(s[1..], m, r);
    }
  }

  /** A match holds no `"` when its marker holds none: the run `[^"]+` stops before the quote. */
  lemma MatchNoQuote(s: string, m: string)
    requires MatchAt(s, 0, m)
    ensures '"' !in m ==> '"' !in s[..MatchEnd(s, 0, m)]
  {
    var k := MatchEnd(s, 0, m);
    if '"' !in m {
      forall i | 0 <= i < k
        ensures s[..k][i] != '"'
      {
        if i < |m| {
          assert s[..|m|][i] == m[i];
        }
      }
    }
  }

  /** `build.js`'s rewrite of the page: the stylesheet references first, then the script references. */
  function Rewrite(html: string, timestamp: nat): (o: string)
    ensures Clean(o, StylesMarker) && Clean(o, AppMarker)
  {
    var styled := ReplaceAll(html, StylesMarker, StylesReplacement(timestamp));
    ShapesHold(timestamp);
    ReplaceAllClean(html, StylesMarker, StylesReplacement(timestamp), StylesMarker);
    ReplaceAllClean(styled, AppMarker, AppReplacement(timestamp), StylesMarker);
    ReplaceAllClean(styled, AppMarker, AppReplacement(timestamp), AppMarker);
    ReplaceAll(styled, AppMarker, AppReplacement(timestamp))
  }

  /** Whether a match starts at a position depends only on the text from there on. */
  lemma MatchAtAppend(a: string, b: string, i: nat, m: string)
    ensures MatchAt(a + b, |a| + i, m) == MatchAt(b, i, m)
  {
    if i + |m| < |b| {
      assert (a + b)[|a| + i..|a| + i + |m|] == b[i..i + |m|];
    }
  }

  /** A match of a prefix is a match of the whole text. */
  lemma MatchAtPrefix(s: string, n: nat, i: nat, m: string)
    requires n <= |s|
    ensures MatchAt(s[..n], i, m) ==> MatchAt(s, i, m)
  {
    if MatchAt(s[..n], i, m) {
      assert s[..n][i..i + |m|] == s[i..i + |m|];
    }
  }

  /** The position of the leftmost match, or the length of the text when there is none. */
  function FindMatch(s: string, m: string): (f: nat)
    ensures f <= |s|
    ensures f < |s| ==> MatchAt(s, f, m)
    decreases |s|
  {
    if s == [] then 0
    else if MatchAt(s, 0, m) then 0
    else
      var f' := FindMatch(s[1..], m);
      assert s == [s[0]] + s[1..];
      MatchAtAppend([s[0]], s[1..], f', m);
      1 + f'
  }

  /** No match starts before the leftmost one, and there is none at all when it is the length. */
  lemma {:induction false} FindMatchFirst(s: string, m: string)
    ensures forall i :: 0 <= i < FindMatch(s, m) ==> !MatchAt(s, i, m)
    ensures FindMatch(s, m) == |s| <==> Clean(s, m)
    decreases |s|
  {
    if s != [] && !MatchAt(s, 0, m) {
      FindMatchFirst(s[1..], m);
      assert s == [s[0]] + s[1..];
      forall i | 1 <= i < |s|
        ensures MatchAt(s, i, m) == MatchAt(s[1..], i - 1, m)
      {
        MatchAtAppend([s[0]], s[1..], i - 1, m);
      }
    }
  }

  /** Text in which no match starts before `k` is copied up to `k` unchanged. */
  lemma {:induction false} ReplaceAllCopies(s: string, m: string, r: string, k: nat)
    requires k <= |s|
    requires forall i :: 0 <= i < k ==> !MatchAt(s, i, m)
    ensures ReplaceAll(s, m, r) == s[..k] + ReplaceAll(s[k..], m, r)
  {
    if k > 0 {
      assert !MatchAt(s, 0, m);
      assert s == [s[0]] + s[1..];
      forall i | 0 <= i < k - 1
        ensures !MatchAt(s[1..], i, m)
      {
        MatchAtAppend([s[0]], s[1..], i, m);
      }
      ReplaceAllCopies(s[1..], m, r, k - 1);
      assert s[1..][k - 1..] == s[k..];
      assert [s[0]] + s[1..][..k - 1] == s[..k];
    }
  }

  /** The run after a marker is measured the same in the text and in its suffix. */
  lemma {:induction false} RunLenDrop(s: string, f: nat, j: nat)
    requires f + j <= |s|
    ensures RunLen(s[f..], j) == RunLen(s, f + j)
    decreases |s| - f - j
  {
    if f + j < |s| && s[f + j] != '"' {
      RunLenDrop(s, f, j + 1);
    }
  }

  /**
   * The output is the text before the leftmost match, the replacement, and
   * the rewritten rest after the match's run; the rest is empty or starts
   * with the `"` that ended the run.
   */
  lemma ReplaceAllSplit(s: string, m: string, r: string)
    requires !Clean(s, m)
    ensures FindMatch(s, m) < |s|
    ensures ReplaceAll(s, m, r)
      == s[..FindMatch(s, m)] + r + ReplaceAll(s[MatchEnd(s, FindMatch(s, m), m)..], m, r)
  {
    var f := FindMatch(s, m);
    FindMatchFirst(s, m);
    ReplaceAllCopies(s, m, r, f);
    MatchEndDrop(s, f, m);
  }

  /** The match at `f` is the match at the start of the suffix from `f`, and ends at the same place. */
  lemma MatchEndDrop(s: string, f: nat, m: string)
    requires MatchAt(s, f, m)
    ensures MatchAt(s[f..], 0, m)
    ensures s[f..][MatchEnd(s[f..], 0, m)..] == s[MatchEnd(s, f, m)..]
  {
    MatchAtAppend(s[..f], s[f..], 0, m);
    assert s[..f] + s[f..] == s;
    RunLenDrop(s, f, |m|);
  }

  /** Text without a match is left alone. */
  lemma ReplaceAllIdentity(s: string, m: string, r: string)
    requires Clean(s, m)
    ensures ReplaceAll(s, m, r) == s
  {
    ReplaceAllCopies(s, m, r, |s|);
    assert s[..|s|] == s;
  }

  /** Text starting with `"` still starts with it once rewritten, since no marker starts with `"`. */
  lemma QuoteFirst(t: string, m: string, r: string)
    requires Marker(m)
    requires t != [] && t[0] == '"'
    ensures ReplaceAll(t, m, r) != [] && ReplaceAll(t, m, r)[0] == '"'
  {
  }

  /**
   * A marker occurrence cannot straddle a replacement: text `a` with no match
   * (even when followed by the matched marker's first character `c`), a
   * replacement without `=` or `"`, and a rewritten rest without a match that
   * starts with `"` glue to text without a match.
   */
  lemma Glue(a: string, c: char, r: string, b: string, q: string)
    requires Marker(q) && Plain(r) && c != '"'
    requires forall i :: 0 <= i < |a| ==> !MatchAt(a + [c], i, q)
    requires b == [] || b[0] == '"'
    requires Clean(b, q)
    ensures Clean(a + r + b, q)
  {
    var o := a + r + b;
    forall i | 0 <= i < |o|
      ensures !MatchAt(o, i, q)
    {
      if i >= |a| + |r| {
        assert o == (a + r) + b;
        MatchAtAppend(a + r, b, i - |a| - |r|, q);
      } else if i + |q| <= |a| {
        // the window lies in `a`; the character after it is `a`'s, or `r`'s first where `a + [c]` has `c`
        if i + |q| < |o| {
          var ac := a + [c];
          assert ac[i..i + |q|] == o[i..i + |q|];
          if i + |q| < |a| {
            assert o[i + |q|] == ac[i + |q|];
          } else {
            assert o[i + |q|] == r[0] && ac[i + |q|] == c;
          }
          assert MatchAt(o, i, q) == MatchAt(ac, i, q);
          assert !MatchAt(ac, i, q);
        }
      } else if i + |q| <= |a| + |r| {
        // the window's last character is in `r`, which has no `=`
        var e := i + |q| - 1;
        assert o[e] == r[e - |a|];
        assert o[i..i + |q|][|q| - 1] == o[e];
      } else if i + |q| < |o| {
        // the window holds the `"` that starts `b`
        var p := |a| + |r|;
        assert o[p] == b[0];
        assert o[i..i + |q|][p - i] == o[p];
      }
    }
  }

  /**
   * The output of a replacement holds no match of a marker `q` that the input
   * did not hold: none of the replaced marker itself, and none of another
   * marker the input was clean of.
   */
  lemma {:induction false} ReplaceAllClean(s: string, m: string, r: string, q: string)
    requires Marker(m) && Marker(q) && Plain(r)
    requires q == m || Clean(s, q)
    ensures Clean(ReplaceAll(s, m, r), q)
    decreases |s|
  {
    if Clean(s, m) {
      ReplaceAllIdentity(s, m, r);
    } else {
      var f := FindMatch(s, m);
      ReplaceAllSplit(s, m, r);
      var k := MatchEnd(s, f, m);
      var t := s[k..];
      if q != m {
        SuffixClean(s, k, q);
      }
      ReplaceAllClean(t, m, r, q);
      if t != [] {
        QuoteFirst(t, m, r);
      }
      FindMatchFirst(s, m);
      BeforeMatch(s, f, m, q);
      Glue(s[..f], s[f], r, ReplaceAll(t, m, r), q);
    }
  }

  /** A suffix of text without a match has none. */
  lemma SuffixClean(s: string, k: nat, q: string)
    requires k <= |s| && Clean(s, q)
    ensures Clean(s[k..], q)
  {
    assert s == s[..k] + s[k..];
    forall i | 0 <= i < |s| - k
      ensures !MatchAt(s[k..], i, q)
    {
      MatchAtAppend(s[..k], s[k..], i, q);
    }
  }

  /** Before the leftmost match of `m`, the text up to the match's first character holds no match of `q` either. */
  lemma BeforeMatch(s: string, f: nat, m: string, q: string)
    requires f < |s|
    requires forall i :: 0 <= i < f ==> !MatchAt(s, i, q)
    ensures forall i :: 0 <= i < f ==> !MatchAt(s[..f] + [s[f]], i, q)
  {
    assert s[..f + 1] == s[..f] + [s[f]];
    forall i | 0 <= i < f
      ensures !MatchAt(s[..f] + [s[f]], i, q)
    {
      MatchAtPrefix(s, f + 1, i, q);
    }
  }

  /** A replacement leaves its input unchanged exactly when the input has no match. */
  lemma ReplaceAllUnchanged(s: string, m: string, r: string)
    requires Marker(m) && Plain(r)
    ensures ReplaceAll(s, m, r) == s <==> Clean(s, m)
  {
    ReplaceAllClean(s, m, r, m);
    if Clean(s, m) {
      ReplaceAllIdentity(s, m, r);
    }
  }

  /** A marker followed at once by `"` (an empty value) is not matched: it is copied with its quote. */
  lemma EmptyValueKept(m: string, rest: string, r: string)
    requires Marker(m)
    ensures ReplaceAll(m + "\"" + rest, m, r) == m + "\"" + ReplaceAll(rest, m, r)
  {
    var s := m + "\"" + rest;
    forall i | 0 <= i < |m| + 1
      ensures !MatchAt(s, i, m)
    {
      if i == 0 {
        assert s[|m|] == '"';
      } else if i + |m| < |s| {
        assert s[i..i + |m|][|m| - i] == s[|m|];
      }
    }
    ReplaceAllCopies(s, m, r, |m| + 1);
    assert s[..|m| + 1] == m + "\"";
    assert s[|m| + 1..] == rest;
  }

  lemma ShapesHold(timestamp: nat)
    ensures Marker(StylesMarker) && Marker(AppMarker)
    ensures Plain(StylesReplacement(timestamp)) && Plain(AppReplacement(timestamp))
  {
    VersionSpec(timestamp, timestamp);
    assert StylesReplacement(timestamp) == "styles.css?" + Version(timestamp);
    assert AppReplacement(timestamp) == "app.js?" + Version(timestamp);
  }

  /** The build leaves a page unchanged exactly when it holds no reference of either kind. */
  lemma RewriteUnchanged(html: string, timestamp: nat)
    ensures Rewrite(html, timestamp) == html <==> Clean(html, StylesMarker) && Clean(html, AppMarker)
  {
    ShapesHold(timestamp);
    if Clean(html, StylesMarker) && Clean(html, AppMarker) {
      ReplaceAllIdentity(html, StylesMarker, StylesReplacement(timestamp));
      ReplaceAllIdentity(html, AppMarker, AppReplacement(timestamp));
    }
  }

  /**
   * A second build changes nothing, whatever its timestamp: the first build's
   * replacements drop the `=` the patterns look for, so the page keeps the
   * first build's version for good.
   */
  lemma RewriteIdempotent(html: string, t1: nat, t2: nat)
    ensures Rewrite(Rewrite(html, t1), t2) == Rewrite(html, t1)
  {
    RewriteUnchanged(Rewrite(html, t1), t2);
  }

  /** The replacement as evidently intended: the marker, `=` included, followed by the timestamp. */
  function Restamp(s: string, m: string, timestamp: nat): (o: string)
    ensures Clean(s, m) ==> o == s
  {
    if Clean(s, m) then
      ReplaceAllIdentity(s, m, m + Decimal(timestamp));
      ReplaceAll(s, m, m + Decimal(timestamp))
    else
      ReplaceAll(s, m, m + Decimal(timestamp))
  }

  /** The build with both replacements corrected. */
  function FixedRewrite(html: string, timestamp: nat): (o: string)
    ensures Clean(html, StylesMarker) && Clean(html, AppMarker) ==> o == html
  {
    Restamp(Restamp(html, StylesMarker, timestamp), AppMarker, timestamp)
  }

  /**
   * With the corrected replacement, the leftmost reference is still a match
   * after the build, at the same place, and its value is the new timestamp:
   * the next build finds it again and writes its own version there.
   */
  lemma RestampFindsAgain(s: string, m: string, timestamp: nat)
    requires Marker(m) && !Clean(s, m)
    ensures MatchAt(Restamp(s, m, timestamp), FindMatch(s, m), m)
    ensures FindMatch(s, m) + |m| + |Decimal(timestamp)| <= |Restamp(s, m, timestamp)|
    ensures var f := FindMatch(s, m);
      Restamp(s, m, timestamp)[f + |m|..f + |m| + |Decimal(timestamp)|] == Decimal(timestamp)
  {
    var f := FindMatch(s, m);
    var d := Decimal(timestamp);
    ReplaceAllSplit(s, m, m + d);
    var rest := ReplaceAll(s[MatchEnd(s, f, m)..], m, m + d);
    StampAt(s[..f], m, d, rest);
  }

  lemma StampAt(a: string, m: string, d: string, rest: string)
    requires |d| > 0 && IsDigit(d[0])
    ensures MatchAt(a + (m + d) + rest, |a|, m)
    ensures |a| + |m| + |d| <= |a + (m + d) + rest|
    ensures (a + (m + d) + rest)[|a| + |m|..|a| + |m| + |d|] == d
  {
    var o := a + (m + d) + rest;
    assert o[|a|..|a| + |m|] == m;
    assert o[|a| + |m|] == d[0];
  }

  /** A corrected build leaves its script reference findable by the next build. */
  lemma FixedRewriteFindsAgain(html: string, timestamp: nat)
    requires !Clean(Restamp(html, StylesMarker, timestamp), AppMarker)
    ensures !Clean(FixedRewrite(html, timestamp), AppMarker)
  {
    var styled := Restamp(html, StylesMarker, timestamp);
    RestampFindsAgain(styled, AppMarker, timestamp);
  }
}
