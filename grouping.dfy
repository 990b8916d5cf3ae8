/**
 * `groupTabByCategory` and `groupTabsByCategories` of the background script,
 * as methods that change the browser step by step. Each returns whether its
 * `catch` branch ran (the error it would log) and, as a ghost, how many host
 * calls succeeded; the browser is then the result of running that many calls
 * of the pure plan of module Plans.
 */
module Grouping {
  import opened Wrappers
  import opened Seqs
  import opened Categories
  import opened Host
  import opened Plans

  /** What `groupTabByCategory` asks of the browser for `tab`, given the groups it found. */
  function TabAction(existing: seq<TabGroup>, tab: Tab): Action
  {
    var category := CategoryOf(tab.url);
    match FirstTitled(existing, category)
    case Some(g) => Join([tab.id], g.id)
    case None => Create([tab.id], category, ColorFor(category))
  }

  /**
   * When every call succeeds, the tab (every tab with its id) joins the first
   * group titled with its category if there is one, leaving the groups as
   * they are; otherwise exactly that tab ends up in one new group, titled with
   * the category and coloured from the colour table. No other tab moves.
   */
  lemma GroupTabOutcome(s: HostState, tab: Tab)
    requires WellFormed(s)
    ensures var c := CategoryOf(tab.url);
            var action := TabAction(s.groups, tab);
            var r := Exec(s, [action], Calls(action));
            && |r.tabs| == |s.tabs|
            && (FirstTitled(s.groups, c).Some? ==>
                  var g := FirstTitled(s.groups, c).value;
                  && g.title == c
                  && r.groups == s.groups
                  && forall j :: 0 <= j < |s.tabs| ==>
                       r.tabs[j] == if s.tabs[j].id == tab.id then s.tabs[j].(groupId := g.id) else s.tabs[j])
            && (FirstTitled(s.groups, c).None? ==>
                  && r.groups == s.groups + [TabGroup(s.nextGroupId, c, ColorFor(c))]
                  && forall j :: 0 <= j < |s.tabs| ==>
                       r.tabs[j] == if s.tabs[j].id == tab.id then s.tabs[j].(groupId := s.nextGroupId) else s.tabs[j])
  {
    var c := CategoryOf(tab.url);
    if FirstTitled(s.groups, c).None? {
      var created := NewGroup(s, [tab.id]);
      var r := Retitle(created, s.nextGroupId, c, ColorFor(c));
      assert [TabAction(s.groups, tab)][1..] == [];
      assert Exec(s, [TabAction(s.groups, tab)], 2) == r;
      CreateRetitled(s, [tab.id], c, ColorFor(c));
    } else {
      assert [TabAction(s.groups, tab)][1..] == [];
    }
  }

  /** groupTabByCategory(tab) */
  method GroupTab(host: Browser, tab: Tab) returns (failed: bool, ghost calls: nat)
    requires host.Valid()
    modifies host
    ensures host.Valid()
    ensures !host.tabGroupsAvailable ==> !failed && host.State() == old(host.State())
    ensures host.tabGroupsAvailable ==>
              var action := TabAction(old(host.groups), tab);
              && calls <= Calls(action)
              && host.State() == Exec(old(host.State()), [action], calls)
              && (failed <==> calls < Calls(action))
  {
    if !host.tabGroupsAvailable {
      return false, 0;
    }
    ghost var s0 := host.State();
    var category := CategoryOf(tab.url);
    var existingGroups := host.QueryGroups();
    var group := FirstTitled(existingGroups, category);
    match group {
      case Some(g) =>
        var ok := host.Group([tab.id], g.id);
        failed, calls := !ok, if ok then 1 else 0;
      case None =>
        var ok, groupId := host.CreateGroup([tab.id]);
        if !ok {
          return true, 0;
        }
        ok := host.Update(groupId, category, ColorFor(category));
        failed, calls := !ok, if ok then 2 else 1;
    }
  }

  /**
   * The `categories` object of `groupTabsByCategories`, built in place: `keys`
   * records the object's keys in insertion order, `buckets` maps each key to
   * the ids pushed under it.
   */
  method Partition(tabs: seq<Tab>) returns (keys: seq<string>, buckets: map<string, seq<TabId>>)
    ensures keys == Keys(tabs)
    ensures buckets == Buckets(tabs)
  {
    keys, buckets := [], map[];
    var i := 0;
    while i < |tabs|
      invariant 0 <= i <= |tabs|
      invariant keys == Keys(tabs[..i])
      invariant buckets == Buckets(tabs[..i])
    {
      var category := CategoryOf(tabs[i].url);
      assert tabs[..i + 1] == tabs[..i] + [tabs[i]];
      KeysAppend(tabs[..i], tabs[i]);
      BucketsAppend(tabs[..i], tabs[i], category);
      var bucket := if category in buckets then buckets[category] else [];
      if category !in buckets {
        keys := keys + [category];
      }
      buckets := buckets[category := bucket + [tabs[i].id]];
      i := i + 1;
    }
    assert tabs[..i] == tabs;
  }

  /**
   * One pass of the loop over the entries of `categories` in
   * `groupTabsByCategories`: `ok` is false when the browser rejected a call,
   * `b` counts the calls it accepted.
   */
  method GroupCategory(host: Browser, window: seq<Tab>, existingGroups: seq<TabGroup>,
                       category: string, tabIds: seq<TabId>) returns (ok: bool, ghost b: nat)
    requires host.Valid()
    modifies host
    ensures host.Valid()
    ensures var action := CategoryAction(window, existingGroups, category, tabIds);
            && b <= CallCount(action)
            && host.State() == Exec(old(host.State()), action, b)
            && (ok <==> b == CallCount(action))
  {
    ok, b := true, 0;
    var group := FirstTitled(existingGroups, category);
    match group {
      case Some(g) =>
        var ungroupedTabIds := NotYetIn(tabIds, window, g.id);
        if |ungroupedTabIds| > 0 {
          ok := host.Group(ungroupedTabIds, g.id);
          b := if ok then 1 else 0;
        }
      case None =>
        var groupId;
        ok, groupId := host.CreateGroup(tabIds);
        if ok {
          ok := host.Update(groupId, category, ColorFor(category));
          b := if ok then 2 else 1;
        }
    }
  }

  /**
   * The pass for the `i`-th key, seen from the whole plan: `calls` calls of
   * the plan were accepted before it and `calls'` after it.
   */
  method GroupKey(host: Browser, window: seq<Tab>, existingGroups: seq<TabGroup>,
                  categories: map<string, seq<TabId>>, category: string, tabIds: seq<TabId>,
                  ghost s0: HostState, ghost keys: seq<string>, ghost i: nat, ghost calls: nat)
    returns (ok: bool, ghost calls': nat)
    requires host.Valid()
    requires i < |keys| && category == keys[i]
    requires category in categories && tabIds == categories[category]
    requires calls == CallCount(PlanFor(keys[..i], categories, window, existingGroups))
    requires host.State() == Exec(s0, PlanFor(keys, categories, window, existingGroups), calls)
    modifies host
    ensures host.Valid()
    ensures host.State() == Exec(s0, PlanFor(keys, categories, window, existingGroups), calls')
    ensures ok ==> calls' == CallCount(PlanFor(keys[..i + 1], categories, window, existingGroups))
    ensures !ok ==> calls' < CallCount(PlanFor(keys, categories, window, existingGroups))
  {
    ghost var b;
    ok, b := GroupCategory(host, window, existingGroups, category, tabIds);
    LoopStep(s0, keys, i, categories, window, existingGroups, category, tabIds, calls, b);
    calls' := calls + b;
  }

  /**
   * The loop of `groupTabsByCategories` over the entries of `categories`, in
   * key order, inside its one `try`: the first rejected call ends it.
   */
  method GroupEach(host: Browser, window: seq<Tab>, existingGroups: seq<TabGroup>,
                   keys: seq<string>, categories: map<string, seq<TabId>>) returns (failed: bool, ghost calls: nat)
    requires host.Valid()
    requires forall c :: c in keys ==> c in categories
    modifies host
    ensures host.Valid()
    ensures calls <= CallCount(PlanFor(keys, categories, window, existingGroups))
    ensures host.State() == Exec(old(host.State()), PlanFor(keys, categories, window, existingGroups), calls)
    ensures failed <==> calls < CallCount(PlanFor(keys, categories, window, existingGroups))
  {
    ghost var s0 := host.State();
    failed, calls := false, 0;
    var i := 0;
    while i < |keys|
      invariant 0 <= i <= |keys|
      invariant host.Valid()
      invariant calls == CallCount(PlanFor(keys[..i], categories, window, existingGroups))
      invariant host.State() == Exec(s0, PlanFor(keys, categories, window, existingGroups), calls)
    {
      var category := keys[i];
      var tabIds := categories[category];
      var ok;
      ok, calls := GroupKey(host, window, existingGroups, categories, category, tabIds, s0, keys, i, calls);
      if !ok {
        return true, calls;
      }
      i := i + 1;
    }
    assert keys[..i] == keys;
  }

  /** groupTabsByCategories() */
  method GroupTabsByCategories(host: Browser) returns (failed: bool, ghost calls: nat)
    requires host.Valid()
    modifies host
    ensures host.Valid()
    ensures !host.tabGroupsAvailable ==> !failed && host.State() == old(host.State())
    ensures host.tabGroupsAvailable ==>
              var plan := Plan(InWindow(old(host.tabs), host.currentWindow), old(host.groups));
              && calls <= CallCount(plan)
              && host.State() == Exec(old(host.State()), plan, calls)
              && (failed <==> calls < CallCount(plan))
  {
    if !host.tabGroupsAvailable {
      return false, 0;
    }
    var tabs := host.QueryCurrentWindow();
    var keys, categories := Partition(tabs);
    var existingGroups := host.QueryGroups();
    failed, calls := GroupEach(host, tabs, existingGroups, keys, categories);
  }
}
