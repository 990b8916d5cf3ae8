/**
 * The rule-authoring page of the extension: the "Save All Groups" handler,
 * which turns each entered URL into a pattern string and validates the forms
 * with one sticky flag, and the cleanup `renderSavedGroups` applies to the
 * stored group configurations before showing them.
 *
 * The URL-syntax regular expression and `new URL(u).hostname` are parameters
 * (`validUrl`, `hostname`): the handler's logic around them is what is
 * modelled, not URL parsing. `hostname(u)` is `None` when `new URL(u)`
 * throws, as it does for a URL without a scheme such as `google.com`, which
 * the expression accepts because it makes the scheme optional.
 */
module GroupSettings {
  import opened Wrappers
  import opened Seqs
  import opened Categories

  /* ---------- URL to pattern ---------- */

  /** `s.replace(pat, rep)` with a string `pat`: only the first occurrence is replaced. */
  function ReplaceFirst(s: string, pat: string, rep: string): string
    decreases |s|
  {
    if pat <= s then rep + s[|pat|..]
    else if s == [] then s
    else [s[0]] + ReplaceFirst(s[1..], pat, rep)
  }

  /**
   * With no occurrence, the string is unchanged; otherwise the occurrence at
   * the first index where `pat` occurs is replaced, and nothing else.
   */
  lemma {:induction false} ReplaceFirstSpec(s: string, pat: string, rep: string, i: nat)
    requires OccursAt(pat, s, i)
    requires forall j :: 0 <= j < i ==> !OccursAt(pat, s, j)
    ensures ReplaceFirst(s, pat, rep) == s[..i] + rep + s[i + |pat|..]
    decreases i
  {
    if i > 0 {
      assert !OccursAt(pat, s, 0);
      forall j | 0 <= j < i - 1 ensures !OccursAt(pat, s[1..], j) {
        assert !OccursAt(pat, s, j + 1);
        assert s[1..][j..j + |pat|] == s[j + 1..j + 1 + |pat|];
      }
      assert s[1..][i - 1..i - 1 + |pat|] == s[i..i + |pat|];
      ReplaceFirstSpec(s[1..], pat, rep, i - 1);
      assert s[..i] == [s[0]] + s[1..][..i - 1];
    } else {
      assert s[..|pat|] == pat;
    }
  }

  lemma {:induction false} ReplaceFirstAbsent(s: string, pat: string, rep: string)
    requires !Occurs(pat, s)
    ensures ReplaceFirst(s, pat, rep) == s
    decreases |s|
  {
    if s != [] {
      ReplaceFirstAbsent(s[1..], pat, rep);
    }
  }

  /** `s.replace(/\./g, '\\.')`: a backslash before every dot. */
  function EscapeDots(s: string): (r: string)
    ensures |r| >= |s|
  {
    if s == [] then []
    else (if s[0] == '.' then "\\." else [s[0]]) + EscapeDots(s[1..])
  }

  /** Reading an escaped pattern back: `\.` stands for a dot, every other character for itself. */
  function Unescape(r: string): string
    decreases |r|
  {
    if r == [] then []
    else if |r| >= 2 && r[0] == '\\' && r[1] == '.' then "." + Unescape(r[2..])
    else [r[0]] + Unescape(r[1..])
  }

  /** Every dot of an escaped string is preceded by a backslash. */
  lemma {:induction false} DotsEscaped(s: string)
    ensures forall i :: 0 <= i < |EscapeDots(s)| && EscapeDots(s)[i] == '.' ==>
              i > 0 && EscapeDots(s)[i - 1] == '\\'
  {
    if s != [] {
      DotsEscaped(s[1..]);
      var head := if s[0] == '.' then "\\." else [s[0]];
      var r := EscapeDots(s);
      assert r == head + EscapeDots(s[1..]);
      forall i | 0 <= i < |r| && r[i] == '.' ensures i > 0 && r[i - 1] == '\\' {
        if i >= |head| {
          assert r[i] == EscapeDots(s[1..])[i - |head|];
          if i - |head| > 0 {
            assert r[i - 1] == EscapeDots(s[1..])[i - |head| - 1];
          }
        }
      }
    }
  }

  /** An escaped string never starts with a dot. */
  lemma EscapedStart(s: string)
    requires s != []
    ensures EscapeDots(s)[0] != '.'
  {
  }

  /** Escaping loses nothing: reading the pattern back gives the original string. */
  lemma {:induction false} UnescapeEscapeDots(s: string)
    ensures Unescape(EscapeDots(s)) == s
  {
    if s != [] {
      var rest := EscapeDots(s[1..]);
      UnescapeEscapeDots(s[1..]);
      if s[0] == '.' {
        assert EscapeDots(s) == "\\." + rest;
        assert EscapeDots(s)[2..] == rest;
      } else {
        assert EscapeDots(s) == [s[0]] + rest;
        assert EscapeDots(s)[1..] == rest;
        if s[0] == '\\' && rest != [] {
          EscapedStart(s[1..]);
        }
      }
    }
  }

  /** The pattern stored for a valid URL with this hostname. */
  function Simplify(hostname: string): string
  {
    EscapeDots("/" + ReplaceFirst(hostname, "www.", "") + "/")
  }

  /**
   * The stored pattern is the hostname, first "www." removed, between slashes,
   * with every dot escaped and nothing else changed.
   */
  lemma SimplifyShape(hostname: string)
    ensures Unescape(Simplify(hostname)) == "/" + ReplaceFirst(hostname, "www.", "") + "/"
    ensures forall i :: 0 <= i < |Simplify(hostname)| && Simplify(hostname)[i] == '.' ==>
              i > 0 && Simplify(hostname)[i - 1] == '\\'
  {
    UnescapeEscapeDots("/" + ReplaceFirst(hostname, "www.", "") + "/");
    DotsEscaped("/" + ReplaceFirst(hostname, "www.", "") + "/");
  }

  /**
   * What the pattern body matches: the hostname itself when it has no "www.",
   * and a suffix of it when it starts with "www.".
   */
  lemma PatternBodyOccursInHost(hostname: string)
    ensures !Occurs("www.", hostname) ==> ReplaceFirst(hostname, "www.", "") == hostname
    ensures "www." <= hostname ==>
              ReplaceFirst(hostname, "www.", "") == hostname[4..]
              && Occurs(ReplaceFirst(hostname, "www.", ""), hostname)
  {
    if !Occurs("www.", hostname) {
      ReplaceFirstAbsent(hostname, "www.", "");
    }
    if "www." <= hostname {
      assert OccursAt(hostname[4..], hostname, 4);
      OccursFromIndex(hostname[4..], hostname, 4);
    }
  }

  /**
   * The removal is not anchored: a "www." inside the hostname is cut out, and
   * the pattern body is then no longer a substring of the hostname.
   */
  lemma InnerWwwIsRemoved()
    ensures ReplaceFirst("xwww.a.com", "www.", "") == "xa.com"
    ensures !Occurs("xa.com", "xwww.a.com")
  {
    assert OccursAt("www.", "xwww.a.com", 1);
    assert "xwww.a.com"[0..4][0] == 'x';
    assert forall j :: 0 <= j < 1 ==> !OccursAt("www.", "xwww.a.com", j);
    ReplaceFirstSpec("xwww.a.com", "www.", "", 1);
    assert "xwww.a.com"[..1] == "x";
    assert "xwww.a.com"[5..] == "a.com";
    assert ReplaceFirst("xwww.a.com", "www.", "") == "x" + "" + "a.com";
    assert "x" + "" + "a.com" == "xa.com";
    XaNotInHost();
  }

  lemma XaNotInHost()
    ensures !Occurs("xa.com", "xwww.a.com")
  {
    forall i: nat ensures !OccursAt("xa.com", "xwww.a.com", i) {
      if 0 <= i && i + 6 <= 10 {
        assert "xwww.a.com"[i + 1] != 'a' || "xwww.a.com"[i] != 'x';
      }
    }
    if Occurs("xa.com", "xwww.a.com") {
      var i := OccursHasIndex("xa.com", "xwww.a.com");
    }
  }

  /* ---------- the save handler ---------- */

  /** One group form: the name select, the custom-name field, the colour select, the URL inputs. */
  datatype Form = Form(nameSelect: string, customName: string, color: string, urls: seq<string>)

  /** A stored group configuration. */
  datatype GroupConfig = GroupConfig(name: string, color: string, urls: seq<string>)

  const OtherName: string := "other"
  const NamePlaceholder: string := "Select Group Name"
  const ColorPlaceholder: string := "Select a color"

  /** The select's value, or the custom field when "other" is selected. */
  function GroupName(f: Form): string
  {
    if f.nameSelect == OtherName then f.customName else f.nameSelect
  }

  predicate NameGiven(name: string)
  {
    name != "" && name != NamePlaceholder
  }

  predicate ColorGiven(color: string)
  {
    color != "" && color != ColorPlaceholder
  }

  /** A form passes its own checks: every URL valid, a name and a colour chosen. */
  predicate FormOk(validUrl: string -> bool, f: Form)
  {
    && (forall k :: 0 <= k < |f.urls| ==> validUrl(f.urls[k]))
    && NameGiven(GroupName(f))
    && ColorGiven(f.color)
  }

  /** `new URL(u)` is reached, because the URL passed the syntax check, and throws. */
  predicate Throws(validUrl: string -> bool, hostname: string -> Option<string>, u: string)
  {
    validUrl(u) && hostname(u).None?
  }

  /** No URL of the list makes `new URL` throw. */
  predicate UrlsParse(validUrl: string -> bool, hostname: string -> Option<string>, urls: seq<string>)
  {
    forall k :: 0 <= k < |urls| ==> !Throws(validUrl, hostname, urls[k])
  }

  /** The pattern stored for one URL input: empty when the URL is rejected. */
  function PatternOf(validUrl: string -> bool, hostname: string -> Option<string>, u: string): string
    requires !Throws(validUrl, hostname, u)
  {
    if validUrl(u) then Simplify(hostname(u).value) else ""
  }

  /** The configuration a form is stored as. */
  function ConfigOf(validUrl: string -> bool, hostname: string -> Option<string>, f: Form): GroupConfig
    requires UrlsParse(validUrl, hostname, f.urls)
  {
    GroupConfig(GroupName(f), f.color,
                seq(|f.urls|, k requires 0 <= k < |f.urls| => PatternOf(validUrl, hostname, f.urls[k])))
  }

  function Names(forms: seq<Form>): (r: seq<string>)
    ensures |r| == |forms|
  {
    seq(|forms|, j requires 0 <= j < |forms| => GroupName(forms[j]))
  }

  /** The first `n` forms pass their checks and carry distinct names. */
  predicate AcceptedUpTo(validUrl: string -> bool, forms: seq<Form>, n: nat)
    requires n <= |forms|
  {
    forall j :: 0 <= j < n ==>
      FormOk(validUrl, forms[j]) && forall i :: 0 <= i < j ==> GroupName(forms[i]) != GroupName(forms[j])
  }

  /**
   * The first `n` forms passing means all of them pass exactly when every
   * form passes its checks and no name occurs twice; a failing prefix fails
   * the whole list.
   */
  lemma AcceptedAll(validUrl: string -> bool, forms: seq<Form>, n: nat)
    requires n <= |forms|
    ensures AcceptedUpTo(validUrl, forms, |forms|) <==>
              (forall j :: 0 <= j < |forms| ==> FormOk(validUrl, forms[j])) && NoDuplicates(Names(forms))
    ensures n < |forms| && !AcceptedUpTo(validUrl, forms, n + 1) ==> !AcceptedUpTo(validUrl, forms, |forms|)
  {
    var names := Names(forms);
    assert forall j :: 0 <= j < |forms| ==> names[j] == GroupName(forms[j]);
  }

  /**
   * The `.map` over a form's URL inputs: each URL's pattern, and whether all
   * were valid. `thrown` is the `TypeError` of `new URL` on a URL that passed
   * the syntax check; it leaves the map at that URL, and no patterns result.
   */
  method SimplifyUrls(urls: seq<string>, validUrl: string -> bool, hostname: string -> Option<string>)
    returns (patterns: seq<string>, allValid: bool, thrown: bool)
    ensures thrown <==> !UrlsParse(validUrl, hostname, urls)
    ensures thrown ==> patterns == [] && !allValid
    ensures !thrown ==>
              && |patterns| == |urls|
              && (forall k :: 0 <= k < |urls| ==> patterns[k] == PatternOf(validUrl, hostname, urls[k]))
              && (allValid <==> forall k :: 0 <= k < |urls| ==> validUrl(urls[k]))
  {
    patterns, allValid, thrown := [], true, false;
    for k := 0 to |urls|
      invariant UrlsParse(validUrl, hostname, urls[..k])
      invariant |patterns| == k
      invariant forall l :: 0 <= l < k ==> patterns[l] == PatternOf(validUrl, hostname, urls[l])
      invariant allValid <==> forall l :: 0 <= l < k ==> validUrl(urls[l])
    {
      assert forall l :: 0 <= l < k ==> urls[..k][l] == urls[l];
      var simplified := "";
      if validUrl(urls[k]) {
        match hostname(urls[k]) {
          case None =>
            return [], false, true;
          case Some(host) =>
            simplified := Simplify(host);
        }
      } else {
        allValid := false;
      }
      patterns := patterns + [simplified];
      assert forall l :: 0 <= l < k + 1 ==> urls[..k + 1][l] == urls[l];
    }
    assert urls[..|urls|] == urls;
  }

  /** The names of the configurations collected so far (`groups.map(group => group.name)`). */
  function NamesOf(groups: seq<GroupConfig>): (r: seq<string>)
    ensures |r| == |groups| && forall j :: 0 <= j < |groups| ==> r[j] == groups[j].name
  {
    seq(|groups|, j requires 0 <= j < |groups| => groups[j].name)
  }

  /**
   * The `forEach` callback for one form, given the configurations collected
   * so far and the flag. A repeated name clears the flag and skips the form;
   * otherwise the form is collected iff the flag is still set after its own
   * checks. `thrown` is the `TypeError` of `new URL`, which leaves the
   * callback before anything else changes.
   */
  method SaveForm(form: Form, validUrl: string -> bool, hostname: string -> Option<string>,
                  groups: seq<GroupConfig>, isValid: bool)
    returns (thrown: bool, isValid': bool, groups': seq<GroupConfig>)
    ensures thrown <==> !UrlsParse(validUrl, hostname, form.urls)
    ensures thrown ==> isValid' == isValid && groups' == groups
    ensures !thrown ==>
              && (isValid' <==> isValid && FormOk(validUrl, form) && GroupName(form) !in NamesOf(groups))
              && groups' == if isValid' then groups + [ConfigOf(validUrl, hostname, form)] else groups
  {
    isValid', groups' := isValid, groups;
    var groupName := if form.nameSelect == OtherName then form.customName else form.nameSelect;
    var groupColor := form.color;
    var urls, urlsValid;
    urls, urlsValid, thrown := SimplifyUrls(form.urls, validUrl, hostname);
    if thrown {
      return;
    }
    if !urlsValid {
      isValid' := false;
    }
    if groupName == "" || groupName == NamePlaceholder {
      isValid' := false;
    }
    if groupColor == "" || groupColor == ColorPlaceholder {
      isValid' := false;
    }
    var groupNames := NamesOf(groups);
    if groupName in groupNames {
      isValid' := false;
      return;
    }
    if isValid' {
      assert urls == ConfigOf(validUrl, hostname, form).urls;
      groups' := groups + [GroupConfig(groupName, groupColor, urls)];
    }
  }

  /**
   * After the first `k` forms: the flag is set iff all of them were collected,
   * the collected ones are the first forms, as configured, and they passed;
   * when one was not collected, the form after the collected ones failed.
   */
  ghost predicate SavedUpTo(validUrl: string -> bool, hostname: string -> Option<string>, forms: seq<Form>,
                            k: nat, isValid: bool, groups: seq<GroupConfig>)
    requires k <= |forms|
  {
    && (forall j :: 0 <= j < k ==> UrlsParse(validUrl, hostname, forms[j].urls))
    && |groups| <= k
    && (isValid <==> |groups| == k)
    && (forall j :: 0 <= j < |groups| ==> groups[j] == ConfigOf(validUrl, hostname, forms[j]))
    && AcceptedUpTo(validUrl, forms, |groups|)
    && (|groups| < k ==> !AcceptedUpTo(validUrl, forms, |groups| + 1))
  }

  /** One more form handled by the callback keeps `SavedUpTo`. */
  lemma SaveStep(validUrl: string -> bool, hostname: string -> Option<string>, forms: seq<Form>, k: nat,
                 isValid: bool, groups: seq<GroupConfig>, isValid': bool, groups': seq<GroupConfig>)
    requires k < |forms| && SavedUpTo(validUrl, hostname, forms, k, isValid, groups)
    requires UrlsParse(validUrl, hostname, forms[k].urls)
    requires isValid' <==> isValid && FormOk(validUrl, forms[k]) && GroupName(forms[k]) !in NamesOf(groups)
    requires groups' == if isValid' then groups + [ConfigOf(validUrl, hostname, forms[k])] else groups
    ensures SavedUpTo(validUrl, hostname, forms, k + 1, isValid', groups')
  {
    var names := NamesOf(groups);
    if isValid' {
      assert |groups| == k;
      forall i | 0 <= i < k ensures GroupName(forms[i]) != GroupName(forms[k]) {
        assert names[i] == groups[i].name == GroupName(forms[i]);
      }
      assert AcceptedUpTo(validUrl, forms, k + 1);
    } else if |groups| == k {
      assert isValid;
      if FormOk(validUrl, forms[k]) {
        var i :| 0 <= i < k && names[i] == GroupName(forms[k]);
        assert names[i] == groups[i].name == GroupName(forms[i]);
      }
      assert !AcceptedUpTo(validUrl, forms, k + 1);
    }
  }

  /**
   * The click handler of "Save All Groups". `groups` collects the forms while
   * the flag is still set; the flag, once cleared, stays cleared, and the
   * configurations are sent for saving only when it is set at the end.
   * `thrown` is the uncaught `TypeError` of `new URL`: the handler stops
   * there and nothing is sent, which the results report as `isValid` false
   * and no groups.
   */
  method SaveGroups(forms: seq<Form>, validUrl: string -> bool, hostname: string -> Option<string>)
    returns (thrown: bool, isValid: bool, groups: seq<GroupConfig>)
    ensures thrown <==> exists j :: 0 <= j < |forms| && !UrlsParse(validUrl, hostname, forms[j].urls)
    ensures thrown ==> !isValid && groups == []
    ensures !thrown ==>
              && (isValid <==>
                    (forall j :: 0 <= j < |forms| ==> FormOk(validUrl, forms[j])) && NoDuplicates(Names(forms)))
              && |groups| <= |forms|
              && (forall j :: 0 <= j < |groups| ==> groups[j] == ConfigOf(validUrl, hostname, forms[j]))
              && AcceptedUpTo(validUrl, forms, |groups|)
              && (|groups| < |forms| ==> !AcceptedUpTo(validUrl, forms, |groups| + 1))
              && (isValid <==> |groups| == |forms|)
  {
    groups, isValid, thrown := [], true, false;
    for k := 0 to |forms|
      invariant SavedUpTo(validUrl, hostname, forms, k, isValid, groups)
    {
      var formThrew, isValid', groups' := SaveForm(forms[k], validUrl, hostname, groups, isValid);
      if formThrew {
        return true, false, [];
      }
      SaveStep(validUrl, hostname, forms, k, isValid, groups, isValid', groups');
      isValid, groups := isValid', groups';
    }
    AcceptedAll(validUrl, forms, |groups|);
  }

  /* ---------- cleanup before rendering ---------- */

  /** `group.urls = Array.from(new Set(group.urls))` for every group. */
  function DedupUrls(configs: seq<GroupConfig>): (r: seq<GroupConfig>)
    ensures |r| == |configs|
  {
    seq(|configs|, i requires 0 <= i < |configs| => configs[i].(urls := Dedup(configs[i].urls)))
  }

  /** `groupConfigs.filter(group => group.name !== "Others")` */
  function DropOthers(configs: seq<GroupConfig>): seq<GroupConfig>
  {
    if configs == [] then []
    else
      var last := configs[|configs| - 1];
      DropOthers(configs[..|configs| - 1]) + if last.name == Others then [] else [last]
  }

  /** What `renderSavedGroups` shows: URLs deduplicated, the "Others" group dropped. */
  function CleanUp(configs: seq<GroupConfig>): seq<GroupConfig>
  {
    DropOthers(DedupUrls(configs))
  }

  /** The indices below `n` of the groups not named "Others", ascending. */
  function KeptBelow(configs: seq<GroupConfig>, n: nat): (r: seq<nat>)
    requires n <= |configs|
    ensures forall k :: 0 <= k < |r| ==> r[k] < n
  {
    if n == 0 then []
    else KeptBelow(configs, n - 1) + if configs[n - 1].name == Others then [] else [n - 1]
  }

  /** The indices ascend and are exactly those of the groups not named "Others". */
  lemma {:induction false} KeptBelowSpec(configs: seq<GroupConfig>, n: nat)
    requires n <= |configs|
    ensures var kept := KeptBelow(configs, n);
            && (forall k, l :: 0 <= k < l < |kept| ==> kept[k] < kept[l])
            && (forall j :: 0 <= j < n ==> (j in kept <==> configs[j].name != Others))
  {
    if n > 0 {
      KeptBelowSpec(configs, n - 1);
    }
  }

  /** The `k`-th kept group is the group at the `k`-th index `KeptBelow` lists. */
  lemma {:induction false} DropOthersAt(configs: seq<GroupConfig>, n: nat)
    requires n <= |configs|
    ensures var r, kept := DropOthers(configs[..n]), KeptBelow(configs, n);
            |r| == |kept| && forall k :: 0 <= k < |r| ==> r[k] == configs[kept[k]]
  {
    if n > 0 {
      DropOthersAt(configs, n - 1);
      assert configs[..n][..n - 1] == configs[..n - 1];
    }
  }

  /**
   * The filter keeps exactly the groups not named "Others", in their original
   * relative order: the `k`-th kept group is the one at the `k`-th index
   * listed by `KeptBelow`, which ascends and lists every such index.
   */
  lemma DropOthersKeeps(configs: seq<GroupConfig>, n: nat)
    requires n <= |configs|
    ensures var r, kept := DropOthers(configs[..n]), KeptBelow(configs, n);
            && |r| == |kept|
            && (forall k :: 0 <= k < |r| ==> r[k] == configs[kept[k]])
            && (forall k, l :: 0 <= k < l < |kept| ==> kept[k] < kept[l])
            && (forall j :: 0 <= j < n ==> (j in kept <==> configs[j].name != Others))
  {
    DropOthersAt(configs, n);
    KeptBelowSpec(configs, n);
  }

  /**
   * After cleanup no group is named "Others", the other groups keep their
   * order, and each shown group's URLs are its stored URLs without
   * duplicates, each kept at its first occurrence.
   */
  lemma CleanUpSpec(configs: seq<GroupConfig>)
    ensures var r, kept := CleanUp(configs), KeptBelow(configs, |configs|);
            && |r| == |kept|
            && (forall k :: 0 <= k < |r| ==> r[k].name != Others)
            && (forall k, l :: 0 <= k < l < |kept| ==> kept[k] < kept[l])
            && (forall j :: 0 <= j < |configs| ==> (j in kept <==> configs[j].name != Others))
            && forall k :: 0 <= k < |r| ==>
                 var original := configs[kept[k]];
                 && r[k].name == original.name && r[k].color == original.color
                 && NoDuplicates(r[k].urls)
                 && (forall u :: u in r[k].urls <==> u in original.urls)
                 && forall i, j :: 0 <= i < j < |r[k].urls| ==>
                      FirstIndex(original.urls, r[k].urls[i]) < FirstIndex(original.urls, r[k].urls[j])
  {
    var d := DedupUrls(configs);
    DropOthersKeeps(d, |d|);
    assert d[..|d|] == d;
    assert KeptBelow(d, |d|) == KeptBelow(configs, |configs|) by {
      KeptBelowNames(d, configs, |d|);
    }
    forall k | 0 <= k < |KeptBelow(configs, |configs|)| {
      DedupSpec(configs[KeptBelow(configs, |configs|)[k]].urls);
    }
  }

  /** Which indices are kept depends on the names only. */
  lemma {:induction false} KeptBelowNames(a: seq<GroupConfig>, b: seq<GroupConfig>, n: nat)
    requires n <= |a| == |b|
    requires forall j :: 0 <= j < |a| ==> a[j].name == b[j].name
    ensures KeptBelow(a, n) == KeptBelow(b, n)
  {
    if n > 0 {
      KeptBelowNames(a, b, n - 1);
    }
  }
}
