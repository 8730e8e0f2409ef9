/**
  The redirect formatter: each `(url, action_data, action_code)` row of the
  Redirection plugin's table becomes one line `source    target    code` of a
  Netlify `_redirects` file, and the file is those lines joined by newlines.
 */
module Formatter {
  import opened Text
  import opened Ints
  import SiteUrl

  /** The `action_code` column as the database driver hands it over. */
  datatype ActionCode = IntCode(n: int) | TextCode(text: String) | NullCode

  /** One fetched row: an enabled, URL-type redirect with a non-null target. */
  datatype Row = Row(url: String, actionData: String, actionCode: ActionCode)

  /** The field separator of an output line: four spaces. */
  const Separator: String := "    "

  /** `normalize_url`: makes a path absolute by prepending one `/` when it has none. */
  function NormalizeUrl(path: String): (r: String)
    ensures |r| >= 1 && r[0] == '/'
    ensures |path| <= |r| <= |path| + 1
  {
    if !StartsWith(path, "/") then "/" + path else path
  }

  /** The path is kept exactly when it already starts with `/`; otherwise exactly one `/` is added. */
  lemma NormalizeUrlIdentity(path: String)
    ensures NormalizeUrl(path)[|NormalizeUrl(path)| - |path|..] == path
    ensures NormalizeUrl(path) == path <==> StartsWith(path, "/")
    ensures !StartsWith(path, "/") ==> NormalizeUrl(path) == "/" + path
  {
  }

  lemma NormalizeUrlIdempotent(path: String)
    ensures NormalizeUrl(NormalizeUrl(path)) == NormalizeUrl(path)
  {
    NormalizeUrlIdentity(NormalizeUrl(path));
  }

  /** Python's `str()` of the column value; a NULL becomes `"None"`. */
  function CodeText(code: ActionCode): (text: String)
    ensures !code.TextCode? ==> text != [] && Trimmed(text) && NoNewline(text)
  {
    match code
    case IntCode(n) => IntToString(n)
    case TextCode(t) => t
    case NullCode => "None"
  }

  /** The source field: `normalize_url(url.strip())`. */
  function FormatSource(url: String): (source: String)
    ensures |source| >= 1 && source[0] == '/'
  {
    NormalizeUrl(Strip(url))
  }

  /** The target field: kept when it starts with `http`, otherwise resolved against the base URL. */
  function ResolveTarget(siteUrl: String, actionData: String): (target: String)
    ensures |target| >= |Strip(actionData)|
  {
    var t := Strip(actionData);
    if StartsWith(t, "http") then t else siteUrl + NormalizeUrl(t)
  }

  /**
    A target beginning with `http` is kept as trimmed; any other is the base
    URL followed by a `/` and then by the trimmed target without its own
    leading `/`, if it had one.
   */
  lemma ResolveTargetShape(siteUrl: String, actionData: String)
    ensures var t, target := Strip(actionData), ResolveTarget(siteUrl, actionData);
            && (StartsWith(t, "http") ==> target == t)
            && (!StartsWith(t, "http") ==>
                  && |target| > |siteUrl| && target[..|siteUrl|] == siteUrl && target[|siteUrl|] == '/'
                  && target[|siteUrl| + 1..] == if StartsWith(t, "/") then t[1..] else t)
  {
  }

  /** The status code used when the row has none. */
  const DefaultCode: String := "301"

  /** The code field: `str(action_code).strip() or '301'`. */
  function FormatCode(code: ActionCode): (c: String)
    ensures c != []
  {
    var t := Strip(CodeText(code));
    if t == [] then DefaultCode else t
  }

  /** One line of the `_redirects` file. */
  function FormatLine(siteUrl: String, row: Row): (line: String)
    ensures |line| >= 1 && line[0] == '/'
    ensures StartsWith(line, FormatSource(row.url) + Separator)
  {
    FormatSource(row.url) + Separator + ResolveTarget(siteUrl, row.actionData) + Separator + FormatCode(row.actionCode)
  }

  /** After the source field and its separator come the target, a second separator and the code, in that order. */
  lemma FormatLineFields(siteUrl: String, row: Row)
    ensures var line, n := FormatLine(siteUrl, row), |FormatSource(row.url) + Separator|;
            && line[..n] == FormatSource(row.url) + Separator
            && line[n..] == ResolveTarget(siteUrl, row.actionData) + Separator + FormatCode(row.actionCode)
  {
    var src, rest := FormatSource(row.url) + Separator, ResolveTarget(siteUrl, row.actionData) + Separator + FormatCode(row.actionCode);
    assert FormatLine(siteUrl, row) == src + rest;
  }

  /** The lines for a whole fetch: the i-th line is the i-th row, formatted. */
  function FormattedLines(siteUrl: String, rows: seq<Row>): (lines: seq<String>)
    ensures |lines| == |rows|
  {
    if rows == [] then []
    else FormattedLines(siteUrl, rows[..|rows| - 1]) + [FormatLine(siteUrl, rows[|rows| - 1])]
  }

  /** Line i of the file is row i, formatted. */
  lemma {:induction false} FormattedLinesAt(siteUrl: String, rows: seq<Row>, i: nat)
    requires i < |rows|
    ensures FormattedLines(siteUrl, rows)[i] == FormatLine(siteUrl, rows[i])
  {
    if i < |rows| - 1 {
      FormattedLinesAt(siteUrl, rows[..|rows| - 1], i);
    }
  }

  /**
    The formatting loop: one line per fetched row, in fetch order, each the
    formatted row.
   */
  method FormatRedirects(siteUrl: String, rows: seq<Row>) returns (lines: seq<String>)
    ensures lines == FormattedLines(siteUrl, rows)
  {
    lines := [];
    for i := 0 to |rows|
      invariant lines == FormattedLines(siteUrl, rows[..i])
    {
      var row := rows[i];
      var source := FormatSource(row.url);
      var target := Strip(row.actionData);
      var code := FormatCode(row.actionCode);
      if !StartsWith(target, "http") {
        target := siteUrl + NormalizeUrl(target);
      }
      var line := source + Separator + target + Separator + code;
      assert line == FormatLine(siteUrl, row) by {
        assert target == ResolveTarget(siteUrl, row.actionData);
      }
      assert rows[..i + 1][..i] == rows[..i];
      lines := lines + [line];
    }
    assert rows[..|rows|] == rows;
  }

  /** Surrounding whitespace is trimmed and a missing leading `/` added: `"contact"` and `"  /old "`. */
  lemma FormatSourceExamples()
    ensures FormatSource("contact") == "/contact"
    ensures FormatSource("  /old ") == "/old"
  {
    StripTrimmed("contact");
    var pre, path, post := "  ", "/old", " ";
    StripAround(pre, path, post);
    assert pre + path + post == "  /old ";
  }

  /** The source field is always an absolute path and is left alone when it already is one. */
  lemma FormatSourceNormalized(url: String)
    requires Trimmed(url) && StartsWith(url, "/")
    ensures FormatSource(url) == url
  {
    StripTrimmed(url);
  }

  /**
    A relative target is the base URL followed by a path beginning with `/`;
    when the base went through the trailing-slash trim, the base contributes
    no `/` of its own where the two meet. A target that itself starts with
    `//` still leaves two (see `ResolveKeepsLeadingSlashes`).
   */
  lemma ResolveRelative(given: String, actionData: String)
    requires !StartsWith(Strip(actionData), "http")
    ensures var siteUrl := SiteUrl.StripTrailingSlashes(given);
            var target := ResolveTarget(siteUrl, actionData);
            && target == siteUrl + NormalizeUrl(Strip(actionData))
            && target[|siteUrl|] == '/'
            && (siteUrl != [] ==> target[|siteUrl| - 1] != '/')
  {
  }

  /** A target beginning with `http` is taken as absolute even when it is no URL, such as `httpfoo`. */
  lemma ResolveHttpPrefix(siteUrl: String)
    ensures ResolveTarget(siteUrl, "httpfoo") == "httpfoo"
  {
    StripTrimmed("httpfoo");
  }

  /** An absolute URL with whitespace around it is only trimmed. */
  lemma ResolvePaddedUrl(siteUrl: String)
    ensures ResolveTarget(siteUrl, " https://a.b/c ") == "https://a.b/c"
  {
    var pre, url, post := " ", "https://a.b/c", " ";
    StripAround(pre, url, post);
    assert pre + url + post == " https://a.b/c ";
  }

  /** A relative target that begins with several slashes keeps them all after the base URL. */
  lemma ResolveKeepsLeadingSlashes(siteUrl: String, target: String)
    requires Trimmed(target) && StartsWith(target, "//")
    ensures ResolveTarget(siteUrl, target) == siteUrl + target
  {
    StripTrimmed(target);
  }

  /**
    `301` replaces the code exactly when the code's text is blank; any other
    code is kept, trimmed. An integer code is never replaced, and a NULL
    code comes out as `None`.
   */
  lemma FormatCodeDefault(code: ActionCode)
    ensures Trimmed(FormatCode(code))
    ensures FormatCode(code) == "301" <==> (AllSpace(CodeText(code)) || Strip(CodeText(code)) == "301")
    ensures !AllSpace(CodeText(code)) ==> FormatCode(code) == Strip(CodeText(code))
    ensures code.IntCode? ==> FormatCode(code) == IntToString(code.n)
    ensures code == NullCode ==> FormatCode(code) == "None"
  {
    StripEmpty(CodeText(code));
    match code
    case IntCode(n) => StripTrimmed(IntToString(n));
    case TextCode(t) =>
    case NullCode => StripTrimmed("None");
  }

  /** A code column whose text is not blank is kept, only trimmed. */
  lemma FormatCodeKeepsText(t: String)
    requires !AllSpace(t)
    ensures FormatCode(TextCode(t)) == Strip(t)
  {
    FormatCodeDefault(TextCode(t));
  }

  /** An integer column holding 301 is written as `301`. */
  lemma FormatCodeInt301()
    ensures FormatCode(IntCode(301)) == "301"
  {
    FormatCodeDefault(IntCode(301));
    assert IntToString(301) == "301";
  }

  /** A code column that is empty or only whitespace is written as `301`. */
  lemma FormatCodeBlank(t: String)
    requires AllSpace(t)
    ensures FormatCode(TextCode(t)) == "301"
  {
    StripEmpty(t);
  }

  /** The default code for an empty column. */
  lemma FormatCodeEmpty()
    ensures FormatCode(TextCode("")) == "301"
  {
  }

  /** Row `/old`, `/new`, empty code with base `https://x.com`. */
  lemma FormatLineExample()
    ensures FormatLine("https://x.com", Row("/old", "/new", TextCode(""))) == "/old" + Separator + "https://x.com/new" + Separator + "301"
  {
    assert FormatSource("/old") == "/old" by { StripTrimmed("/old"); }
    assert ResolveTarget("https://x.com", "/new") == "https://x.com/new" by { StripTrimmed("/new"); }
    assert FormatCode(TextCode("")) == "301";
  }

  /**
    A row whose fields hold no newline once stripped gives a line without a
    newline; a newline that `strip()` removes from the ends does no harm.
   */
  lemma FormatLineNoNewline(siteUrl: String, row: Row)
    requires NoNewline(siteUrl) && StripsToOneLine(row)
    ensures NoNewline(FormatLine(siteUrl, row))
  {
  }

  /** The three fields of a row, stripped as the formatter strips them, hold no newline. */
  predicate StripsToOneLine(row: Row) {
    && NoNewline(Strip(row.url))
    && NoNewline(Strip(row.actionData))
    && NoNewline(Strip(CodeText(row.actionCode)))
  }

  /**
    The file holds exactly one line per row, in fetch order: splitting its
    content at newlines gives back the formatted rows. Zero rows give the
    empty file.
   */
  lemma FileContentLines(siteUrl: String, rows: seq<Row>)
    requires NoNewline(siteUrl) && forall i :: 0 <= i < |rows| ==> StripsToOneLine(rows[i])
    ensures var lines := FormattedLines(siteUrl, rows);
            && (rows == [] ==> JoinLines(lines) == [])
            && (rows != [] ==> SplitLines(JoinLines(lines)) == lines)
            && (rows != [] ==> CountNewlines(JoinLines(lines)) == |rows| - 1)
  {
    var lines := FormattedLines(siteUrl, rows);
    forall i | 0 <= i < |lines|
      ensures NoNewline(lines[i])
    {
      FormattedLinesAt(siteUrl, rows, i);
      FormatLineNoNewline(siteUrl, rows[i]);
    }
    if rows != [] {
      SplitJoinLines(lines);
      JoinLinesNewlineCount(lines);
    }
  }
}
