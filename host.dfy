/**
 * The browser as the background script sees it through its tab-group API:
 * the open tabs with their group membership, the tab groups with title and
 * colour, and the three calls that change them (put tabs into a group, create
 * a group around tabs, retitle a group). Any of those calls may be rejected
 * by the browser; which one is, is not under the script's control.
 */
module Host {
  import opened Wrappers

  type TabId = int
  type GroupId = int

  /** The group id the browser reports for a tab that is in no group. */
  const NoGroup: GroupId := -1

  datatype Tab = Tab(id: TabId, windowId: int, url: string, groupId: GroupId)

  datatype TabGroup = TabGroup(id: GroupId, title: string, color: string)

  /** A snapshot of the browser: its groups, its tabs, and the next free group id. */
  datatype HostState = HostState(groups: seq<TabGroup>, tabs: seq<Tab>, nextGroupId: nat)

  /** `g` is the id of one of `groups`. */
  predicate HasGroup(groups: seq<TabGroup>, g: GroupId)
  {
    exists k :: 0 <= k < |groups| && groups[k].id == g
  }

  /**
   * What the browser guarantees of itself: group ids are distinct and below
   * the next free id, tab ids are distinct, and no tab names a group id that
   * has not been handed out yet.
   */
  ghost predicate WellFormed(s: HostState)
  {
    && (forall k :: 0 <= k < |s.groups| ==> 0 <= s.groups[k].id < s.nextGroupId)
    && (forall k, l :: 0 <= k < l < |s.groups| ==> s.groups[k].id != s.groups[l].id)
    && (forall i, j :: 0 <= i < j < |s.tabs| ==> s.tabs[i].id != s.tabs[j].id)
    && (forall i :: 0 <= i < |s.tabs| ==> s.tabs[i].groupId < s.nextGroupId)
  }

  /** The tabs of window `w`, in window order. */
  function InWindow(tabs: seq<Tab>, w: int): (r: seq<Tab>)
    ensures forall t :: t in r <==> t in tabs && t.windowId == w
    ensures |r| <= |tabs|
  {
    if tabs == [] then []
    else
      var rest := InWindow(tabs[1..], w);
      assert forall t :: t in tabs <==> t == tabs[0] || t in tabs[1..];
      if tabs[0].windowId == w then [tabs[0]] + rest else rest
  }

  /** Every tab whose id is listed in `ids` is moved into group `g`; the others stay put. */
  function Move(tabs: seq<Tab>, ids: seq<TabId>, g: GroupId): (r: seq<Tab>)
  {
    seq(|tabs|, i requires 0 <= i < |tabs| =>
      if tabs[i].id in ids then tabs[i].(groupId := g) else tabs[i])
  }

  /** `chrome.tabs.group({ tabIds, groupId })` when the browser accepts it. */
  function AddTabs(s: HostState, ids: seq<TabId>, g: GroupId): HostState
  {
    s.(tabs := Move(s.tabs, ids, g))
  }

  /**
   * `chrome.tabs.group({ tabIds })` when the browser accepts it: a new group
   * with a fresh id and no title, holding the listed tabs.
   */
  function NewGroup(s: HostState, ids: seq<TabId>): HostState
  {
    HostState(s.groups + [TabGroup(s.nextGroupId, "", "grey")],
              Move(s.tabs, ids, s.nextGroupId),
              s.nextGroupId + 1)
  }

  /** `chrome.tabGroups.update(g, { title, color })` when the browser accepts it. */
  function Retitle(s: HostState, g: GroupId, title: string, color: string): HostState
  {
    s.(groups := seq(|s.groups|, k requires 0 <= k < |s.groups| =>
      if s.groups[k].id == g then s.groups[k].(title := title, color := color) else s.groups[k]))
  }

  /**
   * Adding tabs to an existing group `g` keeps the browser well formed: every
   * listed tab present is then in `g`, every other tab is as it was, no tab
   * changes anything but its group, and the groups are untouched.
   */
  lemma AddTabsMoves(s: HostState, ids: seq<TabId>, g: GroupId)
    requires WellFormed(s) && HasGroup(s.groups, g)
    ensures var r := AddTabs(s, ids, g);
            && WellFormed(r)
            && r.groups == s.groups && r.nextGroupId == s.nextGroupId && |r.tabs| == |s.tabs|
            && (forall j :: 0 <= j < |s.tabs| ==> r.tabs[j] == s.tabs[j].(groupId := r.tabs[j].groupId))
            && (forall j :: 0 <= j < |s.tabs| && s.tabs[j].id in ids ==> r.tabs[j].groupId == g)
            && (forall j :: 0 <= j < |s.tabs| && s.tabs[j].id !in ids ==> r.tabs[j] == s.tabs[j])
  {
  }

  /** Creating a group keeps the browser well formed. */
  lemma NewGroupWellFormed(s: HostState, ids: seq<TabId>)
    requires WellFormed(s)
    ensures WellFormed(NewGroup(s, ids))
    ensures HasGroup(NewGroup(s, ids).groups, s.nextGroupId)
  {
    var s' := NewGroup(s, ids);
    assert s'.groups[|s.groups|].id == s.nextGroupId;
  }

  /** Retitling a group keeps the browser well formed and changes no group id. */
  lemma RetitleWellFormed(s: HostState, g: GroupId, title: string, color: string)
    requires WellFormed(s)
    ensures WellFormed(Retitle(s, g, title, color))
    ensures forall k :: 0 <= k < |s.groups| ==> Retitle(s, g, title, color).groups[k].id == s.groups[k].id
  {
  }

  /**
   * Creating a group and then retitling it appends exactly one group, with
   * the fresh id and the new title and colour, and leaves every earlier group
   * as it was; the listed tabs move into it.
   */
  lemma CreateRetitled(s: HostState, ids: seq<TabId>, title: string, color: string)
    requires WellFormed(s)
    ensures var r := Retitle(NewGroup(s, ids), s.nextGroupId, title, color);
            && WellFormed(r)
            && r.groups == s.groups + [TabGroup(s.nextGroupId, title, color)]
            && r.tabs == Move(s.tabs, ids, s.nextGroupId)
            && r.nextGroupId == s.nextGroupId + 1
  {
    var created := NewGroup(s, ids);
    var r := Retitle(created, s.nextGroupId, title, color);
    NewGroupWellFormed(s, ids);
    RetitleWellFormed(created, s.nextGroupId, title, color);
    forall k | 0 <= k < |s.groups| ensures r.groups[k] == s.groups[k] {
      assert created.groups[k] == s.groups[k];
    }
  }

  /** The browser, with the state the background script reads and changes. */
  class Browser {
    /** Whether `chrome.tabGroups` exists in this browser. */
    const tabGroupsAvailable: bool
    /** The window that `{ currentWindow: true }` selects. */
    const currentWindow: int
    var groups: seq<TabGroup>
    var tabs: seq<Tab>
    var nextGroupId: nat

    constructor (available: bool, window: int, s: HostState)
      requires WellFormed(s)
      ensures Valid() && State() == s
      ensures tabGroupsAvailable == available && currentWindow == window
    {
      tabGroupsAvailable := available;
      currentWindow := window;
      groups, tabs, nextGroupId := s.groups, s.tabs, s.nextGroupId;
    }

    function State(): HostState
      reads this
    {
      HostState(groups, tabs, nextGroupId)
    }

    ghost predicate Valid()
      reads this
    {
      WellFormed(State())
    }

    /** `chrome.tabGroups.query({})` */
    method QueryGroups() returns (gs: seq<TabGroup>)
      ensures gs == groups
    {
      gs := groups;
    }

    /** `chrome.tabs.query({ currentWindow: true })` */
    method QueryCurrentWindow() returns (ts: seq<Tab>)
      ensures ts == InWindow(tabs, currentWindow)
    {
      ts := InWindow(tabs, currentWindow);
    }

    /** `chrome.tabs.group({ tabIds: ids, groupId: g })`; rejected at least when `g` is no group. */
    method Group(ids: seq<TabId>, g: GroupId) returns (ok: bool)
      requires Valid()
      modifies this
      ensures Valid()
      ensures ok ==> HasGroup(old(groups), g)
      ensures State() == if ok then AddTabs(old(State()), ids, g) else old(State())
    {
      ok :| ok ==> HasGroup(groups, g);
      if ok {
        AddTabsMoves(State(), ids, g);
        tabs := Move(tabs, ids, g);
      }
    }

    /** `chrome.tabs.group({ tabIds: ids })`; rejected at least when `ids` is empty. */
    method CreateGroup(ids: seq<TabId>) returns (ok: bool, g: GroupId)
      requires Valid()
      modifies this
      ensures Valid()
      ensures ok ==> ids != [] && g == old(nextGroupId)
      ensures State() == if ok then NewGroup(old(State()), ids) else old(State())
    {
      ok :| ok ==> ids != [];
      g := nextGroupId;
      if ok {
        NewGroupWellFormed(State(), ids);
        groups, tabs, nextGroupId := NewGroup(State(), ids).groups, Move(tabs, ids, g), g + 1;
      }
    }

    /** `chrome.tabGroups.update(g, { title, color })`; rejected at least when `g` is no group. */
    method Update(g: GroupId, title: string, color: string) returns (ok: bool)
      requires Valid()
      modifies this
      ensures Valid()
      ensures ok ==> HasGroup(old(groups), g)
      ensures State() == if ok then Retitle(old(State()), g, title, color) else old(State())
    {
      ok :| ok ==> HasGroup(groups, g);
      if ok {
        RetitleWellFormed(State(), g, title, color);
        groups := Retitle(State(), g, title, color).groups;
      }
    }
  }
}
