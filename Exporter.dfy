/**
  The whole export run, from the run directory listing to the text of the
  `_redirects` file, with the outside world passed in: the directory
  entries, the parsed `sites.json`, which sites have a socket, the number
  typed at the prompt, the `--site-url` argument, and the database query as
  a function from a site's hash to its redirect rows.
 */
module Exporter {
  import opened Wrappers
  import opened Text
  import Sites
  import SiteUrl
  import Formatter

  /** The two ways the run stops early, both with exit status 1 and no file written. */
  datatype Failure = NoEnvironmentsFound | InvalidSelection

  /** What a completed run writes and reports: the chosen hash, the base URL, the file text and the line count. */
  datatype Export = Export(hash: String, siteUrl: String, content: String, count: nat)

  datatype Outcome = Exported(written: Export) | Failed(failure: Failure)

  /** What the script reads from its surroundings. */
  datatype Environment = Environment(
    runDir: seq<Sites.DirEntry>,
    sitesJson: Option<seq<(String, Sites.SiteRecord)>>,
    activeHashes: set<String>,
    choice: String,
    siteUrlArg: Option<String>)

  method Run(env: Environment, fetch: String -> seq<Formatter.Row>) returns (outcome: Outcome, menu: seq<Sites.MenuEntry>)
    ensures var hashes := Sites.SiteHashes(env.runDir);
            hashes == [] ==> outcome == Failed(NoEnvironmentsFound) && menu == []
    ensures var hashes := Sites.SiteHashes(env.runDir);
            var siteMap := Sites.SiteMapOf(env.sitesJson);
            var sorted := Sites.SortSites(siteMap, hashes);
            hashes != [] ==>
              && menu == Sites.Menu(siteMap, sorted, env.activeHashes)
              && (Sites.SelectSite(sorted, env.choice) == None ==> outcome == Failed(InvalidSelection))
              && (Sites.SelectSite(sorted, env.choice).Some? ==>
                    var hash := Sites.SelectSite(sorted, env.choice).value;
                    var url := SiteUrl.EffectiveSiteUrl(env.siteUrlArg, SiteUrl.NameForUrl(siteMap, hash));
                    var rows := fetch(hash);
                    outcome == Exported(Export(hash, url, JoinLines(Formatter.FormattedLines(url, rows)), |rows|)))
  {
    var hashes := Sites.SiteHashes(env.runDir);
    if hashes == [] {
      return Failed(NoEnvironmentsFound), [];
    }
    var siteMap := Sites.BuildSiteMap(env.sitesJson);
    var sorted := Sites.SortSites(siteMap, hashes);
    menu := Sites.Menu(siteMap, sorted, env.activeHashes);
    var selected := Sites.SelectSite(sorted, env.choice);
    if selected.None? {
      return Failed(InvalidSelection), menu;
    }
    var hash := selected.value;
    var siteUrl := SiteUrl.EffectiveSiteUrl(env.siteUrlArg, SiteUrl.NameForUrl(siteMap, hash));
    var rows := fetch(hash);
    var lines := Formatter.FormatRedirects(siteUrl, rows);
    outcome := Exported(Export(hash, siteUrl, JoinLines(lines), |lines|));
  }

  /**
    The menu and the default URL fall back differently for a hash without a
    `sites.json` entry: the menu shows `(unknown)`, the URL is derived from
    `mysite.com`. For a hash with an entry both use its name.
   */
  lemma UrlNameMatchesMenu(siteMap: map<String, String>, hash: String)
    ensures SiteUrl.NameForUrl(siteMap, hash) == Sites.DisplayName(siteMap, hash) <==> hash in siteMap
    ensures hash !in siteMap ==> SiteUrl.NameForUrl(siteMap, hash) == "mysite.com"
  {
    if hash !in siteMap {
      assert Sites.Unknown[0] != "mysite.com"[0];
    }
  }
}
