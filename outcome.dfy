/**
 * Where the tabs end up when `groupTabsByCategories` runs to the end without
 * a rejected call: every tab of the window sits in a group titled with its
 * category, the groups that existed keep their place and title, and tabs of
 * other windows are not touched.
 */
module BatchOutcome {
  import opened Wrappers
  import opened Seqs
  import opened Categories
  import opened Host
  import opened Plans

  /** Tab `j` of `s` belongs to a group of `s` whose title is `title`. */
  ghost predicate InGroupTitled(s: HostState, j: nat, title: string)
    requires j < |s.tabs|
  {
    exists k :: 0 <= k < |s.groups| && s.groups[k].id == s.tabs[j].groupId && s.groups[k].title == title
  }

  /** Tab `j` of `s0` is in window `w` and its category is one of `done`. */
  ghost predicate Handled(s0: HostState, w: int, done: seq<string>, j: nat)
    requires j < |s0.tabs|
  {
    s0.tabs[j].windowId == w && CategoryOf(s0.tabs[j].url) in done
  }

  /**
   * The browser `s` after the categories `done` were handled, starting from
   * `s0`: still well formed, the old groups kept as a prefix, the tabs of
   * `s0` at the same positions with only their group changed, the tabs of handled
   * categories in a group of their title, and every other tab where it was.
   */
  ghost predicate Progress(s0: HostState, w: int, done: seq<string>, s: HostState)
  {
    && WellFormed(s)
    && s0.groups <= s.groups
    && |s.tabs| == |s0.tabs|
    && (forall j :: 0 <= j < |s0.tabs| ==> s.tabs[j] == s0.tabs[j].(groupId := s.tabs[j].groupId))
    && (forall j :: 0 <= j < |s0.tabs| && !Handled(s0, w, done, j) ==> s.tabs[j].groupId == s0.tabs[j].groupId)
    && (forall j :: 0 <= j < |s0.tabs| && Handled(s0, w, done, j) ==>
          InGroupTitled(s, j, CategoryOf(s0.tabs[j].url)))
  }

  /** Two tabs of a well-formed browser with the same id are the same tab. */
  lemma SameIdSameTab(s: HostState, a: nat, b: nat)
    requires WellFormed(s) && a < |s.tabs| && b < |s.tabs|
    requires s.tabs[a].id == s.tabs[b].id
    ensures a == b
  {
    assert forall i, j :: 0 <= i < j < |s.tabs| ==> s.tabs[i].id != s.tabs[j].id;
  }

  /** With distinct tab ids, a tab id names the window tabs of a category exactly when they are in its bucket. */
  lemma BucketIsCategory(s0: HostState, w: int, c: string, j: nat)
    requires WellFormed(s0) && j < |s0.tabs|
    ensures s0.tabs[j].id in IdsIn(InWindow(s0.tabs, w), c) <==>
              s0.tabs[j].windowId == w && CategoryOf(s0.tabs[j].url) == c
  {
    var window := InWindow(s0.tabs, w);
    IdsInSpec(window, c);
    if s0.tabs[j].id in IdsIn(window, c) {
      var m :| 0 <= m < |window| && window[m].id == s0.tabs[j].id && CategoryOf(window[m].url) == c;
      assert window[m] in window;
      var j' :| 0 <= j' < |s0.tabs| && s0.tabs[j'] == window[m];
      SameIdSameTab(s0, j, j');
    }
    if s0.tabs[j].windowId == w && CategoryOf(s0.tabs[j].url) == c {
      assert s0.tabs[j] in s0.tabs;
      var m :| 0 <= m < |window| && window[m] == s0.tabs[j];
    }
  }

  /** A window tab that the snapshot shows in group `g` is tab `j` itself. */
  lemma AlreadyInMeans(s0: HostState, w: int, j: nat, g: GroupId)
    requires WellFormed(s0) && j < |s0.tabs|
    requires AlreadyIn(InWindow(s0.tabs, w), s0.tabs[j].id, g)
    ensures s0.tabs[j].groupId == g
  {
    var t :| t in InWindow(s0.tabs, w) && t.id == s0.tabs[j].id && t.groupId == g;
    var j' :| 0 <= j' < |s0.tabs| && s0.tabs[j'] == t;
    SameIdSameTab(s0, j, j');
  }

  /**
   * One category `c` handled: the tabs listed in `ids` (all window tabs of
   * `c`) moved into group `gid`, titled `c`, and every other window tab of `c`
   * already in it, with the groups only extended.
   */
  lemma Advance(s0: HostState, w: int, done: seq<string>, c: string, s: HostState, s': HostState,
                ids: seq<TabId>, gid: GroupId, kg: nat)
    requires Progress(s0, w, done, s) && c !in done
    requires WellFormed(s') && s.groups <= s'.groups
    requires kg < |s'.groups| && s'.groups[kg].id == gid && s'.groups[kg].title == c
    requires |s'.tabs| == |s.tabs|
    requires forall j :: 0 <= j < |s0.tabs| ==>
               s'.tabs[j] == if s0.tabs[j].id in ids then s.tabs[j].(groupId := gid) else s.tabs[j]
    requires forall j :: 0 <= j < |s0.tabs| && s0.tabs[j].id in ids ==>
               s0.tabs[j].windowId == w && CategoryOf(s0.tabs[j].url) == c
    requires forall j :: 0 <= j < |s0.tabs| && s0.tabs[j].windowId == w && CategoryOf(s0.tabs[j].url) == c ==>
               s0.tabs[j].id in ids || s0.tabs[j].groupId == gid
    ensures Progress(s0, w, done + [c], s')
  {
    assert s0.groups <= s'.groups by {
      assert s'.groups[..|s0.groups|] == s.groups[..|s0.groups|];
    }
    forall j | 0 <= j < |s0.tabs| && Handled(s0, w, done + [c], j)
      ensures InGroupTitled(s', j, CategoryOf(s0.tabs[j].url))
    {
      if CategoryOf(s0.tabs[j].url) == c {
        if s0.tabs[j].id !in ids {
          assert !Handled(s0, w, done, j);
        }
      } else {
        assert Handled(s0, w, done, j);
        var k :| 0 <= k < |s.groups| && s.groups[k].id == s.tabs[j].groupId
                 && s.groups[k].title == CategoryOf(s0.tabs[j].url);
        assert s'.groups[k] == s.groups[k];
      }
    }
    forall j | 0 <= j < |s0.tabs| && !Handled(s0, w, done + [c], j)
      ensures s'.tabs[j].groupId == s0.tabs[j].groupId
    {
      assert !Handled(s0, w, done, j);
    }
  }

  /**
   * A category with a group of its title: all its window tabs end in the
   * first such group, and the groups stay as they are.
   */
  lemma JoinStep(s0: HostState, w: int, done: seq<string>, c: string, s: HostState)
    requires WellFormed(s0) && Progress(s0, w, done, s) && c !in done
    requires FirstTitled(s0.groups, c).Some?
    ensures var action := CategoryAction(InWindow(s0.tabs, w), s0.groups, c, IdsIn(InWindow(s0.tabs, w), c));
            var r := Exec(s, action, CallCount(action));
            && Progress(s0, w, done + [c], r)
            && r.groups == s.groups
            && forall j :: 0 <= j < |s0.tabs| && s0.tabs[j].windowId == w && CategoryOf(s0.tabs[j].url) == c ==>
                 r.tabs[j].groupId == FirstTitled(s0.groups, c).value.id
  {
    var window := InWindow(s0.tabs, w);
    var g := FirstTitled(s0.groups, c).value;
    var bucket := IdsIn(window, c);
    var missing := NotYetIn(bucket, window, g.id);
    var k0 :| 0 <= k0 < |s0.groups| && s0.groups[k0] == g && g.title == c;
    assert s.groups[k0] == g;
    var s' := AddTabs(s, missing, g.id);
    JoinActionMoves(s, window, s0.groups, c, bucket);
    AddTabsMoves(s, missing, g.id);
    forall j | 0 <= j < |s0.tabs|
      ensures s'.tabs[j] == if s0.tabs[j].id in missing then s.tabs[j].(groupId := g.id) else s.tabs[j]
    {
      assert s.tabs[j].id == s0.tabs[j].id;
    }
    forall j | 0 <= j < |s0.tabs|
      ensures s0.tabs[j].id in missing ==> s0.tabs[j].windowId == w && CategoryOf(s0.tabs[j].url) == c
      ensures s0.tabs[j].windowId == w && CategoryOf(s0.tabs[j].url) == c ==>
                s0.tabs[j].id in missing || s0.tabs[j].groupId == g.id
    {
      BucketIsCategory(s0, w, c, j);
      if s0.tabs[j].windowId == w && CategoryOf(s0.tabs[j].url) == c && s0.tabs[j].id !in missing {
        AlreadyInMeans(s0, w, j, g.id);
      }
    }
    Advance(s0, w, done, c, s, s', missing, g.id, k0);
    forall j | 0 <= j < |s0.tabs| && s0.tabs[j].windowId == w && CategoryOf(s0.tabs[j].url) == c
      ensures s'.tabs[j].groupId == g.id
    {
      assert !Handled(s0, w, done, j);
    }
  }

  /**
   * A category without a group of its title: one group, with the next free
   * id, the category as title and its table colour, is appended, and all the
   * category's window tabs end in it.
   */
  lemma CreateStep(s0: HostState, w: int, done: seq<string>, c: string, s: HostState)
    requires WellFormed(s0) && Progress(s0, w, done, s) && c !in done
    requires FirstTitled(s0.groups, c).None?
    ensures var action := CategoryAction(InWindow(s0.tabs, w), s0.groups, c, IdsIn(InWindow(s0.tabs, w), c));
            var r := Exec(s, action, CallCount(action));
            && Progress(s0, w, done + [c], r)
            && r.groups == s.groups + [TabGroup(s.nextGroupId, c, ColorFor(c))]
            && forall j :: 0 <= j < |s0.tabs| && s0.tabs[j].windowId == w && CategoryOf(s0.tabs[j].url) == c ==>
                 r.tabs[j].groupId == s.nextGroupId
  {
    var window := InWindow(s0.tabs, w);
    var action := CategoryAction(window, s0.groups, c, IdsIn(window, c));
    var bucket := IdsIn(window, c);
    var n := s.nextGroupId;
    var created := NewGroup(s, bucket);
    var s' := Retitle(created, n, c, ColorFor(c));
    assert action == [Create(bucket, c, ColorFor(c))];
    assert Exec(s, action, CallCount(action)) == Exec(s', [], 0);
    CreateRetitled(s, bucket, c, ColorFor(c));
    forall j | 0 <= j < |s0.tabs|
      ensures s'.tabs[j] == if s0.tabs[j].id in bucket then s.tabs[j].(groupId := n) else s.tabs[j]
      ensures s0.tabs[j].id in bucket <==> s0.tabs[j].windowId == w && CategoryOf(s0.tabs[j].url) == c
    {
      assert s.tabs[j].id == s0.tabs[j].id;
      BucketIsCategory(s0, w, c, j);
    }
    Advance(s0, w, done, c, s, s', bucket, n, |s.groups|);
  }

  /** Handling one more category in full extends the progress to it. */
  lemma StepOutcome(s0: HostState, w: int, done: seq<string>, c: string, s: HostState)
    requires WellFormed(s0) && Progress(s0, w, done, s) && c !in done
    ensures var action := CategoryAction(InWindow(s0.tabs, w), s0.groups, c, IdsIn(InWindow(s0.tabs, w), c));
            Progress(s0, w, done + [c], Exec(s, action, CallCount(action)))
  {
    if FirstTitled(s0.groups, c).Some? {
      JoinStep(s0, w, done, c, s);
    } else {
      CreateStep(s0, w, done, c, s);
    }
  }

  /** Running the plan for one more key in full is running its action after the plan for the keys before it. */
  lemma ExecNextKey(s0: HostState, keys: seq<string>, i: nat, buckets: map<string, seq<TabId>>,
                    window: seq<Tab>, existing: seq<TabGroup>, c: string, bucket: seq<TabId>)
    requires 0 < i <= |keys| && c == keys[i - 1] && bucket == BucketOf(buckets, c)
    ensures var p := PlanFor(keys[..i - 1], buckets, window, existing);
            var action := CategoryAction(window, existing, c, bucket);
            var q := PlanFor(keys[..i], buckets, window, existing);
            Exec(s0, q, CallCount(q)) == Exec(Exec(s0, p, CallCount(p)), action, CallCount(action))
  {
    PlanSplit(keys, i - 1, buckets, window, existing);
    ExecAll(s0, PlanFor(keys[..i - 1], buckets, window, existing), CategoryAction(window, existing, c, bucket));
  }

  /** Handling the first `i` keys in full establishes the progress for those keys. */
  lemma {:induction false} PrefixOutcome(s0: HostState, w: int, keys: seq<string>, i: nat)
    requires WellFormed(s0) && NoDuplicates(keys) && i <= |keys|
    ensures var window := InWindow(s0.tabs, w);
            var plan := PlanFor(keys[..i], Buckets(window), window, s0.groups);
            Progress(s0, w, keys[..i], Exec(s0, plan, CallCount(plan)))
  {
    var window := InWindow(s0.tabs, w);
    if i == 0 {
      assert keys[..0] == [];
    } else {
      var done := keys[..i - 1];
      var c := keys[i - 1];
      assert keys[..i] == done + [c];
      var p := PlanFor(done, Buckets(window), window, s0.groups);
      PrefixOutcome(s0, w, keys, i - 1);
      assert c !in done;
      StepOutcome(s0, w, done, c, Exec(s0, p, CallCount(p)));
      BucketOfBuckets(window, c);
      ExecNextKey(s0, keys, i, Buckets(window), window, s0.groups, c, IdsIn(window, c));
    }
  }

  /** The category of every tab of window `w` is a key of the `categories` object. */
  lemma WindowTabIsKeyed(s0: HostState, w: int, j: nat)
    requires j < |s0.tabs| && s0.tabs[j].windowId == w
    ensures CategoryOf(s0.tabs[j].url) in Keys(InWindow(s0.tabs, w))
  {
    var window := InWindow(s0.tabs, w);
    KeysSpec(window);
    assert s0.tabs[j] in s0.tabs;
    var m :| 0 <= m < |window| && window[m] == s0.tabs[j];
  }

  /**
   * A run of `groupTabsByCategories` in which the browser accepts every call:
   * each tab of the window is then in a group titled with its category, the
   * groups that existed are still there unchanged, no tab changes anything
   * but its group, and tabs of other windows keep their group.
   */
  lemma FullRunOutcome(s0: HostState, w: int)
    requires WellFormed(s0)
    ensures var plan := Plan(InWindow(s0.tabs, w), s0.groups);
            var r := Exec(s0, plan, CallCount(plan));
            && WellFormed(r)
            && s0.groups <= r.groups
            && |r.tabs| == |s0.tabs|
            && (forall j :: 0 <= j < |s0.tabs| ==> r.tabs[j] == s0.tabs[j].(groupId := r.tabs[j].groupId))
            && (forall j :: 0 <= j < |s0.tabs| && s0.tabs[j].windowId != w ==> r.tabs[j] == s0.tabs[j])
            && (forall j :: 0 <= j < |s0.tabs| && s0.tabs[j].windowId == w ==>
                  exists k :: 0 <= k < |r.groups| && r.groups[k].id == r.tabs[j].groupId
                    && r.groups[k].title == CategoryOf(s0.tabs[j].url))
  {
    var window := InWindow(s0.tabs, w);
    var keys := Keys(window);
    KeysSpec(window);
    assert keys[..|keys|] == keys;
    PrefixOutcome(s0, w, keys, |keys|);
    var plan := Plan(window, s0.groups);
    var r := Exec(s0, plan, CallCount(plan));
    assert Progress(s0, w, keys, r);
    forall j | 0 <= j < |s0.tabs| && s0.tabs[j].windowId == w
      ensures Handled(s0, w, keys, j)
    {
      WindowTabIsKeyed(s0, w, j);
    }
  }
}
