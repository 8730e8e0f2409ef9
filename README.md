# Netlify redirect exporter, modelled in Dafny

The exporter is one Python script, `extract_netlify_redirects.py`. It finds the
LocalWP sites on the machine and lets the user pick one by number. It then reads
the enabled URL redirects of the WordPress Redirection plugin from that site's
database. Each row `(url, action_data, action_code)` becomes one line of a
Netlify `_redirects` file:

```
source    target    code
```

- The source is made absolute.
- A relative target is resolved against a base URL. That base URL is derived
  from the site's display name unless `--site-url` overrides it, and its
  trailing slashes are always removed.
- An empty code becomes `301`.

This project models that transformation as Dafny functions and methods and
proves what it guarantees. The modules follow the script's stages:

- `Text`: the Python `str` operations the script uses. These are `strip()`,
  `startswith()`, `lower()`, the regex class `\w`, `"\n".join` and
  `split("\n")` (the last serves to state properties of the output).
- `Ints`: `str(n)` and `int(s)`, base 10, in Python's grammar, without the
  digit-count limit of Python 3.11 and later. That grammar
  allows surrounding whitespace, a sign, and single underscores between digits.
  The whitespace `int()` skips is `str.isspace()` without U+001C to U+001F.
- `Sites`: the run-directory filter, the `site_map` loop over `sites.json`, the
  stable case-insensitive sort, the numbered menu and the selection.
- `SiteUrl`: `re.split(r"[^\w]+", name.lower())`, the default base URL and the
  `rstrip('/')`.
- `Formatter`: `normalize_url`, the three fields of a line, the formatting loop
  and the newline join.
- `Exporter`: the whole run as one method. Its inputs are:
  - the directory entries;
  - the parsed `sites.json`;
  - the set of hashes whose socket exists;
  - the typed choice;
  - the `--site-url` value;
  - the database query, as a function from a hash to rows.

Loops stay loops: the formatting loop is a `for` loop and the `site_map` fill is
a `while` loop, each with invariants. `sorted()`, `re.split` and the indexing are
single expressions in the script and are functions here.

Behaviour worth knowing, all proved below:

- A site whose `sites.json` entry has no `name` is listed as `(unnamed)`. Its
  tokens are "", "unnamed" and "", so the default base URL is `https://.`.
- A hash missing from `site_map` is listed as `(unknown)`, but its default URL
  comes from the name `mysite.com`.
- Choice `0` selects the last site, and negative numbers count back from the end.
- Any target starting with `http` is kept, only trimmed, `httpfoo` included.
- A relative target that starts with `//` keeps both slashes after the base
  (`Formatter.ResolveKeepsLeadingSlashes`). The base itself never ends in `/`,
  and the normalized target always starts with one.
- Only a blank `str(action_code)` becomes `301`; a NULL code is written as
  `None` (`Formatter.FormatCodeDefault`).
- `int()` skips less whitespace than `strip()`: the separators U+001C to U+001F
  are not skipped, so a choice starting with one of them is invalid
  (`Ints.ParseIntRejectsLeadingSeparator`).

## Model

| member | source | states |
|---|---|---|
| `Text.Strip` | extract_netlify_redirects.py:182-184 | `strip()` leaves no whitespace at either end and never lengthens the string |
| `Text.StripIdempotent` | extract_netlify_redirects.py:182-184 | stripping twice is the same as stripping once |
| `Text.StripIsSlice` | extract_netlify_redirects.py:182-184 | the stripped string is a contiguous piece of the input, with only whitespace cut off on both sides |
| `Text.StripEmpty` | extract_netlify_redirects.py:184 | `strip()` gives "" exactly when the string is all whitespace |
| `Text.Lower` | extract_netlify_redirects.py:120 | `lower()` keeps the length, leaves no ASCII capital, and leaves every character that is not an ASCII capital as it was |
| `Text.LowerIdempotent` | extract_netlify_redirects.py:120 | after `lower()` no ASCII capital remains, and lowering again changes nothing |
| `Text.LowerIgnoresCase` | extract_netlify_redirects.py:120 | two names have the same lowercased form exactly when they have the same length and differ at each position at most in the case of one ASCII letter, so the sort is case-insensitive |
| `Text.SplitJoinLines` | extract_netlify_redirects.py:193 | splitting `"\n".join(lines)` at newlines gives back the lines, for any non-empty list of newline-free lines |
| `Text.JoinLinesNewlineCount` | extract_netlify_redirects.py:193 | joining n newline-free lines puts exactly n - 1 newlines in the text, so there is no trailing newline |
| `Ints.IntToString` | extract_netlify_redirects.py:184 | `str(n)` of an integer code is non-empty, has no surrounding whitespace and no newline; it starts with `-` exactly when n is negative, and the rest is decimal digits with no leading zero (so `str(301)` is `301`, never `+301` or `0301`) |
| `Ints.ParseIntToString` | extract_netlify_redirects.py:132 | `int(str(n)) == n` for every integer |
| `Ints.IntStrip` | extract_netlify_redirects.py:132 | what `int()` reads has none of the whitespace `int()` skips at either end |
| `Ints.IntStripTrimmed` | extract_netlify_redirects.py:132 | a string with no such whitespace at its ends is read as it is |
| `Ints.ParseInt` | extract_netlify_redirects.py:132 | a number is read only when the text, once `int()`'s whitespace is skipped, is non-empty, ends in a digit, and holds only digits, a leading `+` or `-`, and underscores each between two digits; so `"a1"`, `"#2"` and `"1.5"` are rejected |
| `Ints.ParseIntAccepts` | extract_netlify_redirects.py:132 | conversely, every optional sign followed by digits with single underscores between them is read, as the number those digits denote, negated after `-` |
| `Ints.ParseIntLeadingZero` | extract_netlify_redirects.py:132 | `"01"` is read as 1 |
| `Ints.ParseIntPlusSign` | extract_netlify_redirects.py:132 | `"+2"` is read as 2 |
| `Ints.ParseIntUnderscore` | extract_netlify_redirects.py:132 | `"1_0"` is read as 10 |
| `Ints.ParseIntRejectsOtherChars` | extract_netlify_redirects.py:132-133 | `"a1"`, `"1.5"` and `"1__0"` are a `ValueError` |
| `Ints.ParseIntIgnoresSpace` | extract_netlify_redirects.py:132 | whitespace that `int()` skips (`str.isspace()` without U+001C to U+001F) around the typed choice does not change what it reads |
| `Ints.ParseIntBlank` | extract_netlify_redirects.py:132-133 | an empty or all-whitespace choice is a `ValueError` |
| `Ints.ParseIntRejectsLeadingSeparator` | extract_netlify_redirects.py:132-133 | a choice starting with one of U+001C to U+001F is a `ValueError`, although `strip()` would remove that character |
| `Sites.SiteHashes` | extract_netlify_redirects.py:97-98 | a name is a candidate exactly when some entry with that name is a directory and is not `router` |
| `Sites.SiteHashesSingle` | extract_netlify_redirects.py:97-98 | a single entry is kept exactly when it is a directory other than `router` |
| `Sites.SiteHashesAppend` | extract_netlify_redirects.py:97-98 | the filter keeps the listing order: the candidates of two listings joined are those of the first, then those of the second |
| `Sites.ParsedCount` | extract_netlify_redirects.py:113-116 | the fill stops at the first value that is not an object, and every value before it is one |
| `Sites.SiteMapOf` | extract_netlify_redirects.py:105-117 | a missing or unreadable `sites.json` leaves the map empty; otherwise every key of the map is a hash from the file |
| `Sites.BuildSiteMap` | extract_netlify_redirects.py:105-117 | the loop's map is the map of the parsed prefix of `sites.json`, or empty when the file is missing or unreadable |
| `Sites.MapOfFirstContents` | extract_netlify_redirects.py:113-115 | after n items, the keys are the first n hashes, and a hash not repeated later maps to its `name` or `(unnamed)` |
| `Sites.SiteMapOfContents` | extract_netlify_redirects.py:113-117 | for the distinct keys of a JSON object, exactly the hashes before the first non-object are mapped, each to its name or `(unnamed)` |
| `Sites.SortKey` | extract_netlify_redirects.py:120 | the sort key is the display name lowercased: it holds no ASCII capital |
| `Sites.LexLeqTotal` | extract_netlify_redirects.py:120 | Python's string order compares any two strings |
| `Sites.LexLeqAntisymmetric` | extract_netlify_redirects.py:120 | two strings ordered both ways are equal |
| `Sites.LexLeqTransitive` | extract_netlify_redirects.py:120 | the string order is transitive |
| `Sites.LexLeq` | extract_netlify_redirects.py:120 | Python's `<=` on strings: a prefix, the empty string included, comes first |
| `Sites.LexLeqFirstDifference` | extract_netlify_redirects.py:120 | at the first position where two strings differ, the smaller code point puts its string strictly first, so the listing is ascending |
| `Sites.Insert` | extract_netlify_redirects.py:120 | inserting one hash into the listing adds exactly that hash |
| `Sites.InsertSorted` | extract_netlify_redirects.py:120 | inserting into a sorted listing keeps it sorted by lowercased display name |
| `Sites.InsertWithKey` | extract_netlify_redirects.py:120 | inserting keeps, for every key, the hashes with that key in their original order |
| `Sites.SortSites` | extract_netlify_redirects.py:120 | the sorted listing is a permutation of the hashes |
| `Sites.SortSitesSorted` | extract_netlify_redirects.py:120 | the listing is ordered by `site_map.get(h, "(unknown)").lower()` |
| `Sites.SortSitesStable` | extract_netlify_redirects.py:120 | hashes with equal keys keep their directory-listing order |
| `Sites.SortSitesCorrect` | extract_netlify_redirects.py:120 | the listing is sorted, a permutation and stable |
| `Sites.Menu` | extract_netlify_redirects.py:121-126 | the i-th menu line shows the i-th sorted hash under the number i + 1, with its display name (`(unknown)` when it has no entry) and whether its socket exists |
| `Sites.SelectSite` | extract_netlify_redirects.py:130-135 | a selection, when there is one, is one of the listed hashes |
| `Sites.SelectSiteValid` | extract_netlify_redirects.py:130-135 | a choice is valid exactly when `int()` reads it as n with 1 - len <= n <= len, and the selected hash is one of the listed ones |
| `Sites.SelectSiteNumber` | extract_netlify_redirects.py:132 | for every choice `int()` reads as n, whatever its spelling: n >= 1 selects entry n - 1, and n <= 0 selects entry len + n - 1 |
| `Sites.SelectSiteSpellings` | extract_netlify_redirects.py:132 | `"+2"` and `" 2"` both select the second site |
| `Sites.MenuNumberSelects` | extract_netlify_redirects.py:126-132 | the number shown beside a site in the menu selects that site |
| `Sites.SelectSiteZero` | extract_netlify_redirects.py:132 | `"0"` selects the last site |
| `Sites.SelectSiteOutOfRange` | extract_netlify_redirects.py:132-135 | `"99"` with three sites is an invalid selection |
| `Sites.SelectSiteNotNumeric` | extract_netlify_redirects.py:132-135 | a choice without whitespace that `int()` skips at its ends, whose last character is not a digit, is an invalid selection |
| `SiteUrl.DropNonWord` | extract_netlify_redirects.py:140 | a separator run is removed entirely: what is left is empty or starts with a word character |
| `SiteUrl.DropNonWordRun` | extract_netlify_redirects.py:140 | what is removed is a prefix made only of non-word characters |
| `SiteUrl.SplitNonWord` | extract_netlify_redirects.py:140 | `re.split` gives at least one token, and every token is made of word characters |
| `SiteUrl.SplitNonWordSingle` | extract_netlify_redirects.py:140 | a string without separators is a single token |
| `SiteUrl.SplitNonWordStep` | extract_netlify_redirects.py:140 | a word followed by a separator run is the first token, and the rest is split after it |
| `SiteUrl.SplitNonWordConcat` | extract_netlify_redirects.py:140 | the tokens joined together are exactly the word characters of the name, in order |
| `SiteUrl.SplitNonWordInnerNonEmpty` | extract_netlify_redirects.py:140 | only the first and last tokens can be empty |
| `SiteUrl.SplitNonWordSeveral` | extract_netlify_redirects.py:140-141 | a name holding a separator gives at least two tokens |
| `SiteUrl.SplitNonWordLastEmpty` | extract_netlify_redirects.py:140 | a name ending in a separator has an empty last token |
| `SiteUrl.SplitNonWordFirstToken` | extract_netlify_redirects.py:140 | a word followed by a separator is the first token, and at least one token follows it |
| `SiteUrl.SplitNonWordLastToken` | extract_netlify_redirects.py:140 | a word after a final separator is the last token, and at least one token precedes it |
| `SiteUrl.DomainParts` | extract_netlify_redirects.py:140 | the lowercased name always gives at least one token, and every token is made of word characters |
| `SiteUrl.DefaultSiteUrl` | extract_netlify_redirects.py:138-144 | the default always starts with `https://` |
| `SiteUrl.DefaultSiteUrlHost` | extract_netlify_redirects.py:140-144 | after `https://` the default holds only word characters and dots |
| `SiteUrl.DefaultSiteUrlOneWord` | extract_netlify_redirects.py:143-144 | a single-token name gives `https://{name lowercased}.com` |
| `SiteUrl.DefaultSiteUrlTwoWords` | extract_netlify_redirects.py:141-142 | `first<sep>last` gives `https://{first}.{last}`, lowercased |
| `SiteUrl.DefaultSiteUrlThreeTokens` | extract_netlify_redirects.py:141-142 | with three tokens the middle one is dropped |
| `SiteUrl.DefaultSiteUrlFirstLast` | extract_netlify_redirects.py:140-142 | for any number of tokens from two up, the default is `https://{first}.{last}` (lowercased) and every token in between is dropped |
| `SiteUrl.DefaultSiteUrlEnclosed` | extract_netlify_redirects.py:140-142 | a name that starts and ends with a non-word character gives `https://.` |
| `SiteUrl.DefaultSiteUrlMyCoolSite` | extract_netlify_redirects.py:138-144 | `"My Cool Site"` gives `https://my.site` |
| `SiteUrl.DefaultSiteUrlAcme` | extract_netlify_redirects.py:143-144 | `"Acme"` gives `https://acme.com` |
| `SiteUrl.DefaultSiteUrlFallback` | extract_netlify_redirects.py:138-142 | a hash with no `sites.json` entry falls back to the name `mysite.com`, which gives `https://mysite.com` |
| `SiteUrl.DefaultSiteUrlUnnamed` | extract_netlify_redirects.py:138-142 | a site listed as `(unnamed)` gets the default `https://.` |
| `SiteUrl.StripTrailingSlashes` | extract_netlify_redirects.py:151 | `rstrip('/')` keeps a prefix, removes only slashes, and leaves no trailing slash |
| `SiteUrl.StripTrailingSlashesIdempotent` | extract_netlify_redirects.py:151 | trimming twice is trimming once |
| `SiteUrl.EffectiveSiteUrl` | extract_netlify_redirects.py:147-151 | `SITE_URL` never ends in `/` |
| `SiteUrl.EffectiveSiteUrlCases` | extract_netlify_redirects.py:147-151 | without `--site-url` the base is the default itself; with it, the given value minus its trailing slashes |
| `Formatter.NormalizeUrl` | extract_netlify_redirects.py:175-178 | the result starts with `/` and is the path with at most one character added |
| `Formatter.NormalizeUrlIdentity` | extract_netlify_redirects.py:175-178 | the path is kept exactly when it starts with `/`; otherwise exactly one `/` is prepended |
| `Formatter.NormalizeUrlIdempotent` | extract_netlify_redirects.py:175-178 | normalizing twice is normalizing once |
| `Formatter.FormatSource` | extract_netlify_redirects.py:182 | the source field always starts with `/` |
| `Formatter.FormatSourceExamples` | extract_netlify_redirects.py:182 | `"contact"` gives `/contact` and `"  /old "` gives `/old` |
| `Formatter.FormatSourceNormalized` | extract_netlify_redirects.py:182 | an already trimmed absolute path is its own source field |
| `Formatter.CodeText` | extract_netlify_redirects.py:184 | `str()` of an integer or NULL code is non-empty, has no surrounding whitespace and no newline, so only a text code can be blank |
| `Formatter.FormatCodeKeepsText` | extract_netlify_redirects.py:184 | a code column whose text is not blank is kept, only trimmed |
| `Formatter.FormatCodeBlank` | extract_netlify_redirects.py:184 | an empty or whitespace-only code column is written as `301` |
| `Formatter.FormatCodeInt301` | extract_netlify_redirects.py:184 | an integer code 301 is written as `301` |
| `Formatter.ResolveTarget` | extract_netlify_redirects.py:183-187 | the target field is never shorter than the trimmed `action_data` |
| `Formatter.ResolveTargetShape` | extract_netlify_redirects.py:183-187 | an `http`-prefixed target is kept as trimmed; any other is the base, then `/`, then the trimmed target without its own leading `/` |
| `Formatter.ResolveRelative` | extract_netlify_redirects.py:186-187 | with the base after its `rstrip('/')` (line 151), a relative target is the base followed by the normalized target; the base does not end in `/` and the normalized target starts with one (a target starting with `//` still gives two) |
| `Formatter.ResolveHttpPrefix` | extract_netlify_redirects.py:183-186 | `httpfoo` counts as absolute and is emitted unchanged |
| `Formatter.ResolvePaddedUrl` | extract_netlify_redirects.py:183-186 | an absolute URL with spaces around it is only trimmed |
| `Formatter.ResolveKeepsLeadingSlashes` | extract_netlify_redirects.py:186-187 | a relative target starting with `//` keeps both slashes after the base |
| `Formatter.FormatCode` | extract_netlify_redirects.py:184 | the code field is never empty |
| `Formatter.FormatCodeDefault` | extract_netlify_redirects.py:184 | `301` is used exactly when the code text is blank or is itself `301`, otherwise the trimmed text is kept; integer codes are kept and NULL gives `None` |
| `Formatter.FormatCodeEmpty` | extract_netlify_redirects.py:184 | an empty code gives `301` |
| `Formatter.FormatLineExample` | extract_netlify_redirects.py:182-189 | row `/old`, `/new`, "" with base `https://x.com` gives `/old`, four spaces, `https://x.com/new`, four spaces, `301` |
| `Formatter.FormatLine` | extract_netlify_redirects.py:189 | every line starts with the absolute source path, then the four-space separator |
| `Formatter.FormatLineFields` | extract_netlify_redirects.py:189 | after the source field and its separator come the resolved target, a second separator and the code, in that order |
| `Formatter.FormattedLines` | extract_netlify_redirects.py:180-189 | one line per row |
| `Formatter.FormattedLinesAt` | extract_netlify_redirects.py:181-189 | line i is row i, formatted |
| `Formatter.FormatRedirects` | extract_netlify_redirects.py:180-189 | the loop builds exactly the formatted lines of the fetched rows, in fetch order |
| `Formatter.FormatLineNoNewline` | extract_netlify_redirects.py:182-189 | with a base without newlines, a row whose stripped fields hold no newline gives a single-line entry |
| `Formatter.FileContentLines` | extract_netlify_redirects.py:180-193 | for a base without newlines and rows whose stripped fields hold none, the file content splits back into exactly the formatted lines, with one newline fewer than there are rows; zero rows give the empty string |
| `Exporter.UrlNameMatchesMenu` | extract_netlify_redirects.py:138 | the name the default URL comes from equals the menu's name exactly when the hash has a `sites.json` entry; without one it is `mysite.com` |
| `Exporter.Run` | extract_netlify_redirects.py:95-193 | no candidate directory gives `NoEnvironmentsFound`; an invalid choice gives `InvalidSelection` after the menu; otherwise the written text is the joined formatted rows of the selected site, resolved against `SITE_URL`, and the row count is reported |

## Left out

- Virtual-environment bootstrap and re-exec (lines 53-73): packaging plumbing that leaves the data untouched.
- `--cleanup` mode (lines 74-90): it only deletes directories on disk.
- `os.listdir`, `os.path.isdir` and the socket `os.path.exists` check: the directory entries, their directory flag and the set of active hashes are inputs.
- Reading and parsing `sites.json`: the parsed object is an input (`None` when the file is missing, unreadable, not JSON or not an object). A `name` value that is not a string is not modelled.
- The `pymysql` connection and query: the rows are the result of an input function and already satisfy the `WHERE` filter. Connection and query errors are not modelled.
- `argparse`, `input()` and every `print`: the choice and `--site-url` are inputs, and the menu is returned as data.
- Writing the file and printing its absolute path: the model produces the file's text and the line count.
- `Text.IsWordChar`: `\w` is restricted to ASCII letters, digits and `_`; Python's Unicode word characters are not modelled.
- `Text.Lower`: only ASCII capitals are lowered; Python's full Unicode case mapping is not modelled.
- `Ints.ParseInt`: only ASCII digits are accepted; Python's `int()` also reads other Unicode decimal digits. Python 3.11's limit on integer string conversion (by default a `ValueError` for more than 4300 digits, leading zeros included) is not modelled either: the model reads such a choice as its value, where the script would print "Invalid selection".
- `Sites.LexLeq`: Python compares strings by code point, and so does this order on `char`; surrogate-pair details are not modelled.
