/**
 * The tab categoriser of the extension's background script: a fixed, ordered
 * table of categories, each with URL patterns, searched for the first category
 * that has a pattern occurring in a URL, and the table of group colours.
 *
 * Every pattern in the table is a regular expression made only of escaped
 * literal characters (`/google\.com/`), so `pattern.test(url)` is an
 * unanchored, case-sensitive substring search; a pattern is modelled as the
 * literal string it matches.
 */
module Categories {
  import opened Wrappers

  /** `pat` occurs in `s` starting at index `i`. */
  ghost predicate OccursAt(pat: string, s: string, i: int)
  {
    0 <= i && i + |pat| <= |s| && s[i..i + |pat|] == pat
  }

  /** Unanchored substring search, scanning `s` from the left. */
  predicate Occurs(pat: string, s: string)
    decreases |s|
  {
    pat <= s || (|s| > 0 && Occurs(pat, s[1..]))
  }

  /** A hit of the scan is an occurrence at some index. */
  lemma {:induction false} OccursHasIndex(pat: string, s: string) returns (i: nat)
    requires Occurs(pat, s)
    ensures OccursAt(pat, s, i)
    decreases |s|
  {
    if pat <= s {
      i := 0;
    } else {
      var j := OccursHasIndex(pat, s[1..]);
      assert s[1..][j..j + |pat|] == s[j + 1..j + 1 + |pat|];
      i := j + 1;
    }
  }

  /** An occurrence at any index is found by the scan. */
  lemma {:induction false} OccursFromIndex(pat: string, s: string, i: nat)
    requires OccursAt(pat, s, i)
    ensures Occurs(pat, s)
    decreases i
  {
    if i > 0 {
      assert s[1..][i - 1..i - 1 + |pat|] == s[i..i + |pat|];
      OccursFromIndex(pat, s[1..], i - 1);
    }
  }

  /** One row of the table: a category name and its patterns, in order. */
  type Rule = (string, seq<string>)

  /** The fallback category of a URL that no pattern matches. */
  const Others: string := "Others"

  /** The category table, in the order the background script lists it. */
  const UrlPatterns: seq<Rule> := [
    ("Search", ["google.com", "bing.com"]),
    ("codeRepository", ["github.com", "bitbucket.org"]),
    ("Development", ["stackoverflow.com", "codepen.io"]),
    ("Entertainment", ["youtube.com"]),
    ("Professional", ["linkedin.com"]),
    ("Social", ["facebook.com", "twitter.com", "instagram.com", "reddit.com", "discord.com"]),
    ("Movies", ["netflix.com", "hulu.com", "amazon.com", "movies7.to"]),
    ("article", ["medium.com", "dev.to", "towardsdatascience.com"]),
    ("job", ["indeed.com", "glassdoor.com", "apec.fr"])
  ]

  /** Every name `CategoryOf` can return: the nine table keys and the fallback. */
  const CategoryNames: set<string> := {
    "Search", "codeRepository", "Development", "Entertainment", "Professional",
    "Social", "Movies", "article", "job", Others
  }

  /** Some pattern of the list occurs in `url` (the inner loop). */
  predicate MatchesAny(patterns: seq<string>, url: string)
  {
    exists k :: 0 <= k < |patterns| && Occurs(patterns[k], url)
  }

  /** Scan of the patterns in order, stopping at the first hit. */
  function ScanPatterns(patterns: seq<string>, url: string): (hit: bool)
    ensures hit <==> MatchesAny(patterns, url)
  {
    if patterns == [] then false
    else if Occurs(patterns[0], url) then true
    else
      var rest := ScanPatterns(patterns[1..], url);
      assert forall k :: 1 <= k < |patterns| ==> patterns[k] == patterns[1..][k - 1];
      rest
  }

  /** The first rule of `table` with a pattern occurring in `url` (the outer loop). */
  function FirstCategory(table: seq<Rule>, url: string): Option<string>
  {
    if table == [] then None
    else if ScanPatterns(table[0].1, url) then Some(table[0].0)
    else FirstCategory(table[1..], url)
  }

  /** The first hit is a rule that matches and no earlier rule matches; no hit means no rule matches. */
  lemma {:induction false} FirstCategorySpec(table: seq<Rule>, url: string)
    ensures FirstCategory(table, url).None? <==>
              forall j :: 0 <= j < |table| ==> !MatchesAny(table[j].1, url)
    ensures FirstCategory(table, url).Some? ==>
              exists i :: 0 <= i < |table| && table[i].0 == FirstCategory(table, url).value
                && MatchesAny(table[i].1, url)
                && forall j :: 0 <= j < i ==> !MatchesAny(table[j].1, url)
  {
    if table != [] && !ScanPatterns(table[0].1, url) {
      FirstCategorySpec(table[1..], url);
      assert forall j :: 1 <= j < |table| ==> table[j] == table[1..][j - 1];
      if FirstCategory(table[1..], url).Some? {
        var i :| 0 <= i < |table[1..]| && table[1..][i].0 == FirstCategory(table[1..], url).value
                 && MatchesAny(table[1..][i].1, url)
                 && forall j :: 0 <= j < i ==> !MatchesAny(table[1..][j].1, url);
        assert forall j :: 0 <= j < i + 1 ==> !MatchesAny(table[j].1, url);
      }
    } else if table != [] {
      assert table[0].0 == FirstCategory(table, url).value;
    }
  }

  /** getTabCategory: the first category in table order with a pattern in `url`, else "Others". */
  function CategoryOf(url: string): (category: string)
    ensures category in CategoryNames
  {
    FirstCategorySpec(UrlPatterns, url);
    match FirstCategory(UrlPatterns, url)
    case Some(name) => name
    case None => Others
  }

  /** Both directions of the matcher's promise, in terms of the table itself. */
  lemma CategoryOfIsFirstMatch(url: string)
    ensures CategoryOf(url) == Others <==>
              forall j :: 0 <= j < |UrlPatterns| ==> !MatchesAny(UrlPatterns[j].1, url)
    ensures CategoryOf(url) != Others ==>
              exists i :: 0 <= i < |UrlPatterns| && UrlPatterns[i].0 == CategoryOf(url)
                && MatchesAny(UrlPatterns[i].1, url)
                && forall j :: 0 <= j < i ==> !MatchesAny(UrlPatterns[j].1, url)
  {
    FirstCategorySpec(UrlPatterns, url);
  }

  /** A URL containing both "google.com" and "github.com" is a Search tab: earlier rows win. */
  lemma EarlierCategoryWins(url: string, i: nat, j: nat)
    requires OccursAt("google.com", url, i) && OccursAt("github.com", url, j)
    ensures CategoryOf(url) == "Search"
  {
    OccursFromIndex("google.com", url, i);
    assert Occurs(UrlPatterns[0].1[0], url);
  }

  /** The colour table of the background script. */
  const GroupColors: map<string, string> := map[
    "Search" := "blue",
    "Development" := "green",
    "Entertainment" := "red",
    "Professional" := "purple",
    "Social" := "grey",
    "Movies" := "orange",
    Others := "grey",
    "codeRepository" := "green",
    "article" := "blue",
    "job" := "purple"
  ]

  /** `groupColors[category] || 'grey'` */
  function ColorFor(category: string): string
  {
    if category in GroupColors then GroupColors[category] else "grey"
  }

  /**
   * Every category the matcher can return has its own colour entry, so the
   * grey fallback never applies; a tab gets grey only when the table says so.
   */
  lemma ColorIsTabled(url: string)
    ensures CategoryOf(url) in GroupColors
    ensures ColorFor(CategoryOf(url)) == GroupColors[CategoryOf(url)]
    ensures ColorFor(CategoryOf(url)) == "grey" <==> CategoryOf(url) in {"Social", Others}
  {
  }
}
