/**
  The base URL that relative redirect targets are resolved against: a default
  guessed from the chosen site's display name, which an explicit
  `--site-url` replaces, and in either case with every trailing `/` removed.
 */
module SiteUrl {
  import opened Wrappers
  import opened Text

  predicate AllWord(s: String) {
    forall i :: 0 <= i < |s| ==> IsWordChar(s[i])
  }

  predicate NoWord(s: String) {
    forall i :: 0 <= i < |s| ==> !IsWordChar(s[i])
  }

  /** Drops the leading run of non-word characters. */
  function DropNonWord(s: String): (r: String)
    ensures |r| <= |s|
    ensures r == [] || IsWordChar(r[0])
  {
    if s != [] && !IsWordChar(s[0]) then DropNonWord(s[1..]) else s
  }

  /** What is dropped is a prefix made only of separators. */
  lemma {:induction false} DropNonWordRun(s: String)
    ensures var r := DropNonWord(s); r == s[|s| - |r|..] && NoWord(s[..|s| - |r|])
  {
    if s != [] && !IsWordChar(s[0]) {
      DropNonWordRun(s[1..]);
      var r := DropNonWord(s);
      assert s[..|s| - |r|] == [s[0]] + s[1..][..|s| - 1 - |r|];
    }
  }

  /**
    `re.split(r"[^\w]+", s)`: the pieces between maximal runs of non-word
    characters. A run at the start (or end) yields an empty first (or last)
    piece, and the empty string gives one empty piece.
   */
  function SplitNonWord(s: String): (parts: seq<String>)
    ensures |parts| >= 1
    ensures forall k :: 0 <= k < |parts| ==> AllWord(parts[k])
    decreases |s|
  {
    if s == [] then [[]]
    else if IsWordChar(s[0]) then
      var rest := SplitNonWord(s[1..]);
      [[s[0]] + rest[0]] + rest[1..]
    else [[]] + SplitNonWord(DropNonWord(s))
  }

  /** A string without separators is one piece. */
  lemma {:induction false} SplitNonWordSingle(s: String)
    requires AllWord(s)
    ensures SplitNonWord(s) == [s]
  {
    if s != [] {
      SplitNonWordSingle(s[1..]);
      assert [s[0]] + s[1..] == s;
    }
  }

  /** A word, then a separator run, then something that starts with a word character (or nothing): the word is the first piece. */
  lemma {:induction false} SplitNonWordStep(w: String, sep: String, rest: String)
    requires AllWord(w) && sep != [] && NoWord(sep)
    requires rest == [] || IsWordChar(rest[0])
    ensures SplitNonWord(w + sep + rest) == [w] + SplitNonWord(rest)
  {
    if w == [] {
      DropRun(sep, rest);
      assert w + sep + rest == sep + rest;
    } else {
      var s := w + sep + rest;
      assert s[0] == w[0] && s[1..] == w[1..] + sep + rest;
      SplitNonWordStep(w[1..], sep, rest);
      assert [w[0]] + w[1..] == w;
    }
  }

  lemma {:induction false} DropRun(sep: String, rest: String)
    requires NoWord(sep)
    requires rest == [] || IsWordChar(rest[0])
    ensures DropNonWord(sep + rest) == rest
  {
    if sep == [] {
      assert sep + rest == rest;
    } else {
      assert (sep + rest)[1..] == sep[1..] + rest;
      DropRun(sep[1..], rest);
    }
  }

  /** No character is lost but the separators: the pieces put together are the word characters of `s`. */
  lemma {:induction false} SplitNonWordConcat(s: String)
    ensures Concat(SplitNonWord(s)) == WordChars(s)
    decreases |s|
  {
    if s == [] {
    } else if IsWordChar(s[0]) {
      var rest := SplitNonWord(s[1..]);
      SplitNonWordConcat(s[1..]);
      assert Concat(rest) == rest[0] + Concat(rest[1..]);
      var parts := [[s[0]] + rest[0]] + rest[1..];
      assert parts[1..] == rest[1..];
      assert Concat(parts) == [s[0]] + rest[0] + Concat(rest[1..]);
    } else {
      var d := DropNonWord(s);
      SplitNonWordConcat(d);
      WordCharsDropped(s);
      var parts := [[]] + SplitNonWord(d);
      assert parts[1..] == SplitNonWord(d);
    }
  }

  lemma {:induction false} WordCharsDropped(s: String)
    ensures WordChars(DropNonWord(s)) == WordChars(s)
  {
    if s != [] && !IsWordChar(s[0]) {
      WordCharsDropped(s[1..]);
    }
  }

  /** Pieces between two separator runs are never empty: only the first and the last piece can be. */
  predicate InnerNonEmpty(parts: seq<String>) {
    forall k :: 0 < k < |parts| - 1 ==> parts[k] != []
  }

  lemma {:induction false} SplitNonWordInnerNonEmpty(s: String)
    ensures InnerNonEmpty(SplitNonWord(s))
    decreases |s|
  {
    if s == [] {
    } else if IsWordChar(s[0]) {
      var rest := SplitNonWord(s[1..]);
      SplitNonWordInnerNonEmpty(s[1..]);
      var parts := [[s[0]] + rest[0]] + rest[1..];
      assert SplitNonWord(s) == parts;
      assert |parts| == |rest|;
      assert InnerNonEmpty(rest);
      forall k | 0 < k < |parts| - 1
        ensures parts[k] != []
      {
        assert parts[k] == rest[k];
      }
    } else {
      var d := DropNonWord(s);
      SplitNonWordInnerNonEmpty(d);
      if d != [] {
        FirstPieceNonEmpty(d);
      }
      var parts := [[]] + SplitNonWord(d);
      assert forall k :: 0 < k < |parts| ==> parts[k] == SplitNonWord(d)[k - 1];
    }
  }

  lemma FirstPieceNonEmpty(s: String)
    requires s != [] && IsWordChar(s[0])
    ensures SplitNonWord(s)[0] != []
  {
  }

  /** The tokens of a display name: `re.split(r"[^\w]+", name.lower())`. */
  function DomainParts(name: String): (parts: seq<String>)
    ensures |parts| >= 1
    ensures forall k :: 0 <= k < |parts| ==> AllWord(parts[k])
  {
    SplitNonWord(Lower(name))
  }

  /** `https://{first}.{last}` for two or more tokens, else `https://{tokens joined}.com`. */
  function DefaultSiteUrl(name: String): (url: String)
    ensures StartsWith(url, "https://")
  {
    var parts := DomainParts(name);
    if |parts| >= 2 then "https://" + parts[0] + "." + parts[|parts| - 1]
    else "https://" + Concat(parts) + ".com"
  }

  /** After the scheme, the default holds only word characters and dots. */
  lemma DefaultSiteUrlHost(name: String)
    ensures var url := DefaultSiteUrl(name);
            forall i :: 8 <= i < |url| ==> IsWordChar(url[i]) || url[i] == '.'
  {
    var parts := DomainParts(name);
    if |parts| < 2 {
      assert Concat(parts) == parts[0] + Concat([]);
    }
  }

  lemma LowerKeepsWordClass(s: String)
    ensures forall i :: 0 <= i < |s| ==> (IsWordChar(Lower(s)[i]) <==> IsWordChar(s[i]))
  {
  }

  lemma LowerAppend(a: String, b: String)
    ensures Lower(a + b) == Lower(a) + Lower(b)
  {
  }

  /** A name made of word characters only becomes `https://{name}.com`, lowercased. */
  lemma DefaultSiteUrlOneWord(name: String)
    requires AllWord(name)
    ensures DefaultSiteUrl(name) == "https://" + Lower(name) + ".com"
  {
    LowerKeepsWordClass(name);
    SplitNonWordSingle(Lower(name));
    assert Concat([Lower(name)]) == Lower(name) + Concat([]);
  }

  /** For a name whose tokens are first, ..., last the URL is `https://{first}.{last}`; middle tokens are dropped. */
  lemma DefaultSiteUrlTwoWords(first: String, sep: String, last: String)
    requires AllWord(first) && AllWord(last) && sep != [] && NoWord(sep)
    ensures DefaultSiteUrl(first + sep + last) == "https://" + Lower(first) + "." + Lower(last)
  {
    LowerAppend(first + sep, last);
    LowerAppend(first, sep);
    LowerKeepsWordClass(first);
    LowerKeepsWordClass(sep);
    LowerKeepsWordClass(last);
    var lf, ls, ll := Lower(first), Lower(sep), Lower(last);
    assert Lower(first + sep + last) == lf + ls + ll;
    SplitNonWordStep(lf, ls, ll);
    SplitNonWordSingle(ll);
  }

  /** Past a word character, dropping the leading separators never reaches `v`. */
  lemma {:induction false} DropNonWordAppend(u: String, v: String)
    requires !NoWord(u)
    ensures DropNonWord(u + v) == DropNonWord(u) + v
  {
    if !IsWordChar(u[0]) {
      assert !NoWord(u[1..]) by {
        var i :| 0 <= i < |u| && IsWordChar(u[i]);
        assert u[1..][i - 1] == u[i];
      }
      assert (u + v)[1..] == u[1..] + v;
      DropNonWordAppend(u[1..], v);
    }
  }

  /** A word followed by a separator is the first piece, and at least one piece follows it. */
  lemma {:induction false} SplitNonWordFirstToken(w: String, t: String)
    requires AllWord(w) && t != [] && !IsWordChar(t[0])
    ensures var parts := SplitNonWord(w + t); |parts| >= 2 && parts[0] == w
  {
    if w == [] {
      assert w + t == t;
    } else {
      assert (w + t)[1..] == w[1..] + t;
      SplitNonWordFirstToken(w[1..], t);
      assert [w[0]] + w[1..] == w;
    }
  }

  /** A word after a separator run at the end is the last piece, and at least one piece precedes it. */
  lemma {:induction false} SplitNonWordLastToken(x: String, sep: String, l: String)
    requires AllWord(l) && sep != [] && NoWord(sep)
    ensures var parts := SplitNonWord(x + sep + l); |parts| >= 2 && parts[|parts| - 1] == l
    decreases |x|
  {
    var s := x + sep + l;
    if x == [] {
      assert s == sep + l;
      DropRun(sep, l);
      SplitNonWordSingle(l);
    } else if IsWordChar(x[0]) {
      assert s[1..] == x[1..] + sep + l;
      SplitNonWordLastToken(x[1..], sep, l);
    } else if NoWord(x) {
      assert s == (x + sep) + l;
      DropRun(x + sep, l);
      SplitNonWordSingle(l);
    } else {
      var d := DropNonWord(x);
      assert s == x + (sep + l);
      DropNonWordAppend(x, sep + l);
      assert DropNonWord(x) == DropNonWord(x[1..]);
      assert d + (sep + l) == d + sep + l;
      SplitNonWordLastToken(d, sep, l);
    }
  }

  /**
    Lines 141-142 for any number of tokens from two up: a name that is a word,
    then anything beginning and ending with a separator, then a word, gives
    `https://{first}.{last}`; every token in between is dropped.
   */
  lemma DefaultSiteUrlFirstLast(first: String, mid: String, last: String)
    requires AllWord(first) && AllWord(last)
    requires mid != [] && !IsWordChar(mid[0]) && !IsWordChar(mid[|mid| - 1])
    ensures DefaultSiteUrl(first + mid + last) == "https://" + Lower(first) + "." + Lower(last)
  {
    LowerAppend(first + mid, last);
    LowerAppend(first, mid);
    LowerKeepsWordClass(first);
    LowerKeepsWordClass(mid);
    LowerKeepsWordClass(last);
    var lf, lm, ll := Lower(first), Lower(mid), Lower(last);
    var low := lf + lm + ll;
    assert Lower(first + mid + last) == low;
    assert low == lf + (lm + ll);
    SplitNonWordFirstToken(lf, lm + ll);
    var x, sep := lf + lm[..|lm| - 1], [lm[|lm| - 1]];
    assert low == x + sep + ll;
    SplitNonWordLastToken(x, sep, ll);
  }

  /** `s.rstrip('/')`: every trailing slash removed, nothing else. */
  function StripTrailingSlashes(s: String): (r: String)
    ensures |r| <= |s| && r == s[..|r|]
    ensures forall i :: |r| <= i < |s| ==> s[i] == '/'
    ensures r == [] || r[|r| - 1] != '/'
  {
    if s != [] && s[|s| - 1] == '/' then StripTrailingSlashes(s[..|s| - 1]) else s
  }

  /** A string that does not end in `/` is left as it is; so stripping twice is stripping once. */
  lemma StripTrailingSlashesIdempotent(s: String)
    ensures StripTrailingSlashes(StripTrailingSlashes(s)) == StripTrailingSlashes(s)
  {
  }

  /** `SITE_URL`: the `--site-url` value when given, else the default, with trailing slashes removed. */
  function EffectiveSiteUrl(siteUrlArg: Option<String>, name: String): (url: String)
    ensures url == [] || url[|url| - 1] != '/'
  {
    StripTrailingSlashes(siteUrlArg.GetOr(DefaultSiteUrl(name)))
  }

  /** The default never ends in `/`, so without an override the trim is a no-op; an override loses only its trailing slashes. */
  lemma EffectiveSiteUrlCases(siteUrlArg: Option<String>, name: String)
    ensures siteUrlArg == None ==> EffectiveSiteUrl(siteUrlArg, name) == DefaultSiteUrl(name)
    ensures siteUrlArg.Some? ==>
              var given, url := siteUrlArg.value, EffectiveSiteUrl(siteUrlArg, name);
              given[..|url|] == url && forall i :: |url| <= i < |given| ==> given[i] == '/'
  {
    var d := DefaultSiteUrl(name);
    assert d[|d| - 1] == '.' || IsWordChar(d[|d| - 1]);
  }

  /** The name the default is derived from: the site's entry, or `mysite.com` when the hash has none. */
  function NameForUrl(siteMap: map<String, String>, hash: String): String {
    if hash in siteMap then siteMap[hash] else "mysite.com"
  }

  /** With three tokens the middle one is dropped: `https://{first}.{last}`. */
  lemma DefaultSiteUrlThreeTokens(first: String, sep1: String, middle: String, sep2: String, last: String)
    requires middle != [] && AllWord(first) && AllWord(middle) && AllWord(last)
    requires sep1 != [] && NoWord(sep1) && sep2 != [] && NoWord(sep2)
    ensures DefaultSiteUrl(first + sep1 + middle + sep2 + last) == "https://" + Lower(first) + "." + Lower(last)
  {
    var name := first + sep1 + middle + sep2 + last;
    LowerAppend(first + sep1 + middle + sep2, last);
    LowerAppend(first + sep1 + middle, sep2);
    LowerAppend(first + sep1, middle);
    LowerAppend(first, sep1);
    LowerKeepsWordClass(first);
    LowerKeepsWordClass(sep1);
    LowerKeepsWordClass(middle);
    LowerKeepsWordClass(sep2);
    LowerKeepsWordClass(last);
    var f, s1, m, s2, l := Lower(first), Lower(sep1), Lower(middle), Lower(sep2), Lower(last);
    assert Lower(name) == f + s1 + (m + s2 + l);
    SplitNonWordSingle(l);
    SplitNonWordStep(m, s2, l);
    SplitNonWordStep(f, s1, m + s2 + l);
  }

  /** A string holding a separator splits into at least two pieces. */
  lemma {:induction false} SplitNonWordSeveral(s: String, i: nat)
    requires i < |s| && !IsWordChar(s[i])
    ensures |SplitNonWord(s)| >= 2
    decreases |s|
  {
    if IsWordChar(s[0]) {
      SplitNonWordSeveral(s[1..], i - 1);
    }
  }

  /** A string ending with a separator has an empty last piece. */
  lemma {:induction false} SplitNonWordLastEmpty(s: String)
    requires s != [] && !IsWordChar(s[|s| - 1])
    ensures var parts := SplitNonWord(s); parts[|parts| - 1] == []
    decreases |s|
  {
    if IsWordChar(s[0]) {
      var t := s[1..];
      assert t[|t| - 1] == s[|s| - 1];
      SplitNonWordLastEmpty(t);
      SplitNonWordSeveral(t, |t| - 1);
    } else {
      var d := DropNonWord(s);
      if d != [] {
        DropNonWordRun(s);
        assert d[|d| - 1] == s[|s| - 1];
        SplitNonWordLastEmpty(d);
      }
    }
  }

  /**
    A name that starts and ends with a non-word character has an empty first
    and an empty last token, so its default URL degenerates to `https://.`.
   */
  lemma DefaultSiteUrlEnclosed(name: String)
    requires name != [] && !IsWordChar(name[0]) && !IsWordChar(name[|name| - 1])
    ensures DefaultSiteUrl(name) == "https://."
  {
    var low := Lower(name);
    LowerKeepsWordClass(name);
    SplitNonWordSeveral(low, 0);
    SplitNonWordLastEmpty(low);
  }

  // The example lemmas below go through helpers that keep the split name apart
  // from its literal spelling: with both in one proof the solver keeps
  // unfolding DefaultSiteUrl on the literal and runs out of resource.

  /** Helper: the default URL of "My Cool Site", taken token by token. */
  lemma MyCoolSiteTokens()
    ensures DefaultSiteUrl("My" + " " + "Cool" + " " + "Site") == "https://my.site"
  {
    var my, cool, site, sp := "My", "Cool", "Site", " ";
    DefaultSiteUrlThreeTokens(my, sp, cool, sp, site);
    assert Lower(my) == "my" && Lower(site) == "site";
  }

  /** Helper: the token-by-token spelling is the literal name. */
  lemma SpelledMyCoolSite()
    ensures "My" + " " + "Cool" + " " + "Site" == "My Cool Site"
  {
  }

  lemma DefaultSiteUrlMyCoolSite()
    ensures DefaultSiteUrl("My Cool Site") == "https://my.site"
  {
    MyCoolSiteTokens();
    SpelledMyCoolSite();
  }

  lemma DefaultSiteUrlAcme()
    ensures DefaultSiteUrl("Acme") == "https://acme.com"
  {
    DefaultSiteUrlOneWord("Acme");
    assert Lower("Acme") == "acme";
  }

  /** Helper: the default URL of "mysite.com", taken token by token. */
  lemma FallbackTokens()
    ensures DefaultSiteUrl("mysite" + "." + "com") == "https://mysite.com"
  {
    var first, dot, last := "mysite", ".", "com";
    DefaultSiteUrlTwoWords(first, dot, last);
    assert Lower(first) == first && Lower(last) == last;
  }

  /** Helper: the token-by-token spelling is the literal name. */
  lemma SpelledFallback()
    ensures "mysite" + "." + "com" == "mysite.com"
  {
  }

  /** The fallback name of a hash missing from the site map. */
  lemma DefaultSiteUrlFallback()
    ensures DefaultSiteUrl("mysite.com") == "https://mysite.com"
  {
    FallbackTokens();
    SpelledFallback();
  }

  /** A site whose entry has no name is listed as `(unnamed)`. */
  lemma DefaultSiteUrlUnnamed()
    ensures DefaultSiteUrl("(unnamed)") == "https://."
  {
    DefaultSiteUrlEnclosed("(unnamed)");
  }
}
