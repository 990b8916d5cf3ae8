/**
 * What the two grouping functions of the background script decide, as pure
 * functions of what they read from the browser: the per-category partition of
 * the window's tabs, the action taken for each category, and the state the
 * browser is left in when the first `budget` of the resulting host calls
 * succeed and the next one (if any) is rejected.
 */
module Plans {
  import opened Wrappers
  import opened Seqs
  import opened Categories
  import opened Host

  /** `existingGroups.find(g => g.title === title)`: the first group with that title. */
  function FirstTitled(groups: seq<TabGroup>, title: string): (r: Option<TabGroup>)
    ensures r.None? <==> forall k :: 0 <= k < |groups| ==> groups[k].title != title
    ensures r.Some? ==> exists k :: 0 <= k < |groups| && groups[k] == r.value
                          && r.value.title == title
                          && forall l :: 0 <= l < k ==> groups[l].title != title
  {
    if groups == [] then None
    else if groups[0].title == title then Some(groups[0])
    else
      var r := FirstTitled(groups[1..], title);
      assert forall k :: 1 <= k < |groups| ==> groups[k] == groups[1..][k - 1];
      if r.Some? then
        var k :| 0 <= k < |groups[1..]| && groups[1..][k] == r.value && r.value.title == title
                 && forall l :: 0 <= l < k ==> groups[1..][l].title != title;
        assert groups[k + 1] == r.value;
        r
      else r
  }

  /** One grouping step the script asks of the browser. */
  datatype Action =
    | Join(tabIds: seq<TabId>, groupId: GroupId)            // chrome.tabs.group({ tabIds, groupId })
    | Create(tabIds: seq<TabId>, title: string, color: string) // chrome.tabs.group({ tabIds }) then tabGroups.update

  /** How many host calls an action makes. */
  function Calls(a: Action): nat
  {
    if a.Join? then 1 else 2
  }

  function CallCount(plan: seq<Action>): nat
  {
    if plan == [] then 0 else Calls(plan[0]) + CallCount(plan[1..])
  }

  /**
   * The browser after the first `budget` host calls of `plan` succeed; the call
   * after them, if any, is rejected and ends the run (the whole loop sits in
   * one `try`). A creation whose retitling is rejected leaves an untitled group.
   */
  function Exec(s: HostState, plan: seq<Action>, budget: nat): HostState
    decreases |plan|
  {
    if plan == [] || budget == 0 then s
    else
      match plan[0]
      case Join(ids, g) => Exec(AddTabs(s, ids, g), plan[1..], budget - 1)
      case Create(ids, title, color) =>
        var created := NewGroup(s, ids);
        if budget == 1 then created
        else Exec(Retitle(created, s.nextGroupId, title, color), plan[1..], budget - 2)
  }

  lemma {:induction false} CallCountAppend(p: seq<Action>, q: seq<Action>)
    ensures CallCount(p + q) == CallCount(p) + CallCount(q)
  {
    if p == [] {
      assert p + q == q;
    } else {
      assert (p + q)[1..] == p[1..] + q;
      CallCountAppend(p[1..], q);
    }
  }

  /** Running all of `p` and then `b` calls of `q` is running `b` calls past `p`. */
  lemma {:induction false} ExecAppend(s: HostState, p: seq<Action>, q: seq<Action>, b: nat)
    ensures Exec(s, p + q, CallCount(p) + b) == Exec(Exec(s, p, CallCount(p)), q, b)
    decreases |p|
  {
    if p == [] {
      assert p + q == q;
    } else {
      assert (p + q)[1..] == p[1..] + q;
      match p[0]
      case Join(ids, g) => ExecAppend(AddTabs(s, ids, g), p[1..], q, b);
      case Create(ids, title, color) =>
        ExecAppend(Retitle(NewGroup(s, ids), s.nextGroupId, title, color), p[1..], q, b);
    }
  }

  /** Calls that stop inside `p` never reach what follows `p`. */
  lemma {:induction false} ExecStopsEarly(s: HostState, p: seq<Action>, q: seq<Action>, b: nat)
    requires b <= CallCount(p)
    ensures Exec(s, p + q, b) == Exec(s, p, b)
    decreases |p|
  {
    if p != [] && b > 0 {
      assert (p + q)[1..] == p[1..] + q;
      match p[0]
      case Join(ids, g) => ExecStopsEarly(AddTabs(s, ids, g), p[1..], q, b - 1);
      case Create(ids, title, color) =>
        if b > 1 {
          ExecStopsEarly(Retitle(NewGroup(s, ids), s.nextGroupId, title, color), p[1..], q, b - 2);
        }
    }
  }

  /** Stopping after `b` calls of the middle part `a` of `p + a + q`. */
  lemma ExecWithin(s: HostState, p: seq<Action>, a: seq<Action>, q: seq<Action>, b: nat)
    requires b <= CallCount(a)
    ensures Exec(s, p + a + q, CallCount(p) + b) == Exec(Exec(s, p, CallCount(p)), a, b)
  {
    assert p + a + q == p + (a + q);
    ExecAppend(s, p, a + q, b);
    ExecStopsEarly(Exec(s, p, CallCount(p)), a, q, b);
  }

  /** The category of every tab, in window order. */
  function CategoryList(tabs: seq<Tab>): (r: seq<string>)
    ensures |r| == |tabs|
  {
    seq(|tabs|, i requires 0 <= i < |tabs| => CategoryOf(tabs[i].url))
  }

  /** The keys of the `categories` object, in insertion order: categories as first met. */
  function Keys(tabs: seq<Tab>): seq<string>
  {
    Dedup(CategoryList(tabs))
  }

  /** The bucket of category `c`: ids of the tabs of that category, in window order. */
  function IdsIn(tabs: seq<Tab>, c: string): seq<TabId>
    decreases |tabs|
  {
    if tabs == [] then []
    else
      var last := tabs[|tabs| - 1];
      IdsIn(tabs[..|tabs| - 1], c) + (if CategoryOf(last.url) == c then [last.id] else [])
  }

  /** A bucket holds the id of a tab exactly when some tab with that id has that category. */
  lemma {:induction false} IdsInSpec(tabs: seq<Tab>, c: string)
    ensures forall id :: id in IdsIn(tabs, c) <==>
              exists j :: 0 <= j < |tabs| && tabs[j].id == id && CategoryOf(tabs[j].url) == c
  {
    if tabs != [] {
      var p := tabs[..|tabs| - 1];
      IdsInSpec(p, c);
      assert forall j :: 0 <= j < |p| ==> p[j] == tabs[j];
    }
  }

  /** Sum of the bucket sizes over `keys`. */
  function BucketTotal(keys: seq<string>, tabs: seq<Tab>): nat
  {
    if keys == [] then 0 else |IdsIn(tabs, keys[0])| + BucketTotal(keys[1..], tabs)
  }

  lemma {:induction false} BucketTotalAppendTab(keys: seq<string>, tabs: seq<Tab>, t: Tab)
    requires NoDuplicates(keys)
    ensures BucketTotal(keys, tabs + [t]) ==
              BucketTotal(keys, tabs) + (if CategoryOf(t.url) in keys then 1 else 0)
  {
    assert (tabs + [t])[..|tabs|] == tabs;
    if keys != [] {
      assert NoDuplicates(keys[1..]);
      assert CategoryOf(t.url) in keys <==> CategoryOf(t.url) == keys[0] || CategoryOf(t.url) in keys[1..];
      assert keys[0] !in keys[1..];
      BucketTotalAppendTab(keys[1..], tabs, t);
    }
  }

  lemma {:induction false} BucketTotalAppendKey(keys: seq<string>, c: string, tabs: seq<Tab>)
    ensures BucketTotal(keys + [c], tabs) == BucketTotal(keys, tabs) + |IdsIn(tabs, c)|
  {
    if keys != [] {
      assert (keys + [c])[1..] == keys[1..] + [c];
      BucketTotalAppendKey(keys[1..], c, tabs);
    }
  }

  /** The keys are the distinct categories of the window, each once. */
  lemma KeysSpec(tabs: seq<Tab>)
    ensures NoDuplicates(Keys(tabs))
    ensures forall c :: c in Keys(tabs) <==> exists j :: 0 <= j < |tabs| && CategoryOf(tabs[j].url) == c
  {
    var cats := CategoryList(tabs);
    DedupSpec(cats);
    forall c | c in cats ensures exists j :: 0 <= j < |tabs| && CategoryOf(tabs[j].url) == c {
      var j :| 0 <= j < |cats| && cats[j] == c;
      assert CategoryOf(tabs[j].url) == c;
    }
    forall j | 0 <= j < |tabs| ensures CategoryOf(tabs[j].url) in cats {
      assert cats[j] == CategoryOf(tabs[j].url);
    }
  }

  /** Appending a tab adds its category as the last key, unless it is a key already. */
  lemma KeysAppend(p: seq<Tab>, t: Tab)
    ensures Keys(p + [t]) == if CategoryOf(t.url) in Keys(p) then Keys(p) else Keys(p) + [CategoryOf(t.url)]
  {
    assert CategoryList(p + [t])[..|p|] == CategoryList(p);
  }

  /** Appending a tab appends its id to its own bucket only. */
  lemma IdsInAppend(p: seq<Tab>, t: Tab, c: string)
    ensures IdsIn(p + [t], c) == IdsIn(p, c) + if CategoryOf(t.url) == c then [t.id] else []
  {
    assert (p + [t])[..|p|] == p;
  }

  /** A category that no tab has gets an empty bucket. */
  lemma {:induction false} NoTabNoBucket(tabs: seq<Tab>, c: string)
    requires forall j :: 0 <= j < |tabs| ==> CategoryOf(tabs[j].url) != c
    ensures IdsIn(tabs, c) == []
  {
    if tabs != [] {
      NoTabNoBucket(tabs[..|tabs| - 1], c);
    }
  }

  /** The buckets of all keys together hold exactly as many entries as the window has tabs. */
  lemma {:induction false} BucketTotalIsWindowSize(tabs: seq<Tab>)
    ensures BucketTotal(Keys(tabs), tabs) == |tabs|
  {
    if tabs != [] {
      var p, t := tabs[..|tabs| - 1], tabs[|tabs| - 1];
      var c := CategoryOf(t.url);
      assert tabs == p + [t];
      BucketTotalIsWindowSize(p);
      KeysSpec(p);
      KeysAppend(p, t);
      BucketTotalAppendTab(Keys(p), p, t);
      if c !in Keys(p) {
        BucketTotalAppendKey(Keys(p), c, tabs);
        IdsInAppend(p, t, c);
        NoTabNoBucket(p, c);
      }
    }
  }

  /**
   * The partition puts every tab of the window into the bucket of its own
   * category, under a key of the object, and the buckets together hold exactly
   * as many entries as the window has tabs: each tab lands in one bucket only.
   */
  lemma PartitionCovers(tabs: seq<Tab>)
    ensures NoDuplicates(Keys(tabs))
    ensures forall j :: 0 <= j < |tabs| ==>
              CategoryOf(tabs[j].url) in Keys(tabs) && tabs[j].id in IdsIn(tabs, CategoryOf(tabs[j].url))
    ensures BucketTotal(Keys(tabs), tabs) == |tabs|
  {
    KeysSpec(tabs);
    forall j | 0 <= j < |tabs|
      ensures CategoryOf(tabs[j].url) in Keys(tabs) && tabs[j].id in IdsIn(tabs, CategoryOf(tabs[j].url))
    {
      IdsInSpec(tabs, CategoryOf(tabs[j].url));
    }
    BucketTotalIsWindowSize(tabs);
  }

  /** A tab of the window snapshot with this id already sits in group `g`. */
  predicate AlreadyIn(window: seq<Tab>, id: TabId, g: GroupId)
  {
    exists t :: t in window && t.id == id && t.groupId == g
  }

  /** `tabIds.filter(id => !tabs.find(t => t.id === id && t.groupId === group.id))` */
  function NotYetIn(ids: seq<TabId>, window: seq<Tab>, g: GroupId): (r: seq<TabId>)
    ensures forall k :: 0 <= k < |r| ==> r[k] in ids && !AlreadyIn(window, r[k], g)
    ensures forall id :: id in ids && !AlreadyIn(window, id, g) ==> id in r
  {
    if ids == [] then []
    else (if AlreadyIn(window, ids[0], g) then [] else [ids[0]]) + NotYetIn(ids[1..], window, g)
  }

  /**
   * The `categories` object of the window: each key mapped to its bucket.
   * `categories[category]` is read only for keys of the object; `BucketOf`
   * gives the empty list elsewhere, which is what `IdsIn` gives there too.
   */
  function Buckets(tabs: seq<Tab>): map<string, seq<TabId>>
  {
    map c | c in Keys(tabs) :: IdsIn(tabs, c)
  }

  function BucketOf(buckets: map<string, seq<TabId>>, c: string): seq<TabId>
  {
    if c in buckets then buckets[c] else []
  }

  /** Reading the object built from the window gives each category's bucket, for every category. */
  lemma BucketOfBuckets(tabs: seq<Tab>, c: string)
    ensures BucketOf(Buckets(tabs), c) == IdsIn(tabs, c)
  {
    KeysSpec(tabs);
    if c !in Keys(tabs) {
      NoTabNoBucket(tabs, c);
    }
  }

  /**
   * Appending a tab of category `c` pushes its id onto the bucket of `c`,
   * starting that bucket (and key) if `c` had none; no other bucket changes.
   */
  lemma BucketsAppend(p: seq<Tab>, t: Tab, c: string)
    requires c == CategoryOf(t.url)
    ensures Buckets(p + [t]) == Buckets(p)[c := BucketOf(Buckets(p), c) + [t.id]]
  {
    var m, m' := Buckets(p), Buckets(p + [t]);
    KeysAppend(p, t);
    forall k | k in m'
      ensures m'[k] == m[c := BucketOf(m, c) + [t.id]][k]
    {
      IdsInAppend(p, t, k);
      BucketOfBuckets(p, k);
    }
  }

  /** What the batch does for one category and its bucket: an add of the missing tabs, nothing, or one new group. */
  function CategoryAction(window: seq<Tab>, existing: seq<TabGroup>, c: string, bucket: seq<TabId>): seq<Action>
  {
    match FirstTitled(existing, c)
    case Some(g) =>
      var missing := NotYetIn(bucket, window, g.id);
      if |missing| > 0 then [Join(missing, g.id)] else []
    case None => [Create(bucket, c, ColorFor(c))]
  }

  /**
   * For a category with a group of that title, the batch adds exactly the
   * bucket's tabs that are not yet members of the first such group, and makes
   * no call when there are none; for a category without one, it creates one
   * group holding the whole bucket, titled with the category.
   */
  lemma CategoryActionSpec(window: seq<Tab>, existing: seq<TabGroup>, c: string, bucket: seq<TabId>)
    ensures FirstTitled(existing, c).Some? ==>
              var g := FirstTitled(existing, c).value;
              (CategoryAction(window, existing, c, bucket) == [] <==>
                 forall id :: id in bucket ==> AlreadyIn(window, id, g.id))
              && forall a :: a in CategoryAction(window, existing, c, bucket) ==>
                   a.Join? && a.groupId == g.id && g.title == c
                   && forall id :: id in a.tabIds <==> id in bucket && !AlreadyIn(window, id, g.id)
    ensures FirstTitled(existing, c).None? ==>
              CategoryAction(window, existing, c, bucket) == [Create(bucket, c, ColorFor(c))]
  {
    if FirstTitled(existing, c).Some? {
      var g := FirstTitled(existing, c).value;
      var missing := NotYetIn(bucket, window, g.id);
      if |missing| == 0 {
        assert forall id :: id !in missing;
      } else {
        assert CategoryAction(window, existing, c, bucket) == [Join(missing, g.id)];
        assert missing[0] in missing;
        assert missing[0] in bucket && !AlreadyIn(window, missing[0], g.id);
        assert g.title == c;
      }
    }
  }

  /** For a category with a group of its title, running its action in full moves exactly the missing tabs into that group. */
  lemma JoinActionMoves(s: HostState, window: seq<Tab>, existing: seq<TabGroup>, c: string, bucket: seq<TabId>)
    requires FirstTitled(existing, c).Some?
    ensures var g := FirstTitled(existing, c).value;
            var action := CategoryAction(window, existing, c, bucket);
            Exec(s, action, CallCount(action)) == AddTabs(s, NotYetIn(bucket, window, g.id), g.id)
  {
    var g := FirstTitled(existing, c).value;
    var missing := NotYetIn(bucket, window, g.id);
    var action := CategoryAction(window, existing, c, bucket);
    if |missing| > 0 {
      assert action == [Join(missing, g.id)];
      assert action[1..] == [];
    } else {
      assert action == [];
      assert Move(s.tabs, missing, g.id) == s.tabs;
    }
  }

  /** The actions for `keys`, in key order (built from the last key back), each with its bucket. */
  function PlanFor(keys: seq<string>, buckets: map<string, seq<TabId>>, window: seq<Tab>,
                   existing: seq<TabGroup>): seq<Action>
  {
    if keys == [] then []
    else
      var c := keys[|keys| - 1];
      PlanFor(keys[..|keys| - 1], buckets, window, existing) + CategoryAction(window, existing, c, BucketOf(buckets, c))
  }

  /** Everything `groupTabsByCategories` asks of the browser, in order. */
  function Plan(window: seq<Tab>, existing: seq<TabGroup>): seq<Action>
  {
    PlanFor(Keys(window), Buckets(window), window, existing)
  }

  lemma {:induction false} PlanForAppend(k1: seq<string>, k2: seq<string>, buckets: map<string, seq<TabId>>,
                                         window: seq<Tab>, existing: seq<TabGroup>)
    ensures PlanFor(k1 + k2, buckets, window, existing) ==
              PlanFor(k1, buckets, window, existing) + PlanFor(k2, buckets, window, existing)
    decreases |k2|
  {
    if k2 == [] {
      assert k1 + k2 == k1;
    } else {
      var k2' := k2[..|k2| - 1];
      assert (k1 + k2)[..|k1 + k2| - 1] == k1 + k2';
      assert (k1 + k2)[|k1 + k2| - 1] == k2[|k2| - 1];
      PlanForAppend(k1, k2', buckets, window, existing);
    }
  }

  /** The plan for all keys is the plan before key `i`, key `i`'s action, and the plan after it. */
  lemma PlanSplit(keys: seq<string>, i: nat, buckets: map<string, seq<TabId>>, window: seq<Tab>, existing: seq<TabGroup>)
    requires i < |keys|
    ensures var action := CategoryAction(window, existing, keys[i], BucketOf(buckets, keys[i]));
            && PlanFor(keys, buckets, window, existing) ==
                 PlanFor(keys[..i], buckets, window, existing) + action + PlanFor(keys[i + 1..], buckets, window, existing)
            && PlanFor(keys[..i + 1], buckets, window, existing) == PlanFor(keys[..i], buckets, window, existing) + action
  {
    assert keys == keys[..i] + [keys[i]] + keys[i + 1..];
    assert keys[..i + 1] == keys[..i] + [keys[i]];
    assert ([keys[i]])[..0] == [];
    PlanForAppend(keys[..i] + [keys[i]], keys[i + 1..], buckets, window, existing);
    PlanForAppend(keys[..i], [keys[i]], buckets, window, existing);
  }

  /** Running all of `p + a` is running all of `p` and then all of `a`. */
  lemma ExecAll(s0: HostState, p: seq<Action>, a: seq<Action>)
    ensures Exec(s0, p + a, CallCount(p + a)) == Exec(Exec(s0, p, CallCount(p)), a, CallCount(a))
  {
    ExecAppend(s0, p, a, CallCount(a));
    CallCountAppend(p, a);
  }

  /**
   * `b` calls into the middle part `a` of `p + a + q`, once all of `p` has
   * been accepted, are `b` more calls of the whole; falling short of `a`
   * stops the whole short, and completing `a` completes `p + a`.
   */
  lemma ExecStep(s0: HostState, p: seq<Action>, a: seq<Action>, q: seq<Action>, calls: nat, b: nat)
    requires calls == CallCount(p) && b <= CallCount(a)
    ensures Exec(Exec(s0, p + a + q, calls), a, b) == Exec(s0, p + a + q, calls + b)
    ensures b < CallCount(a) ==> calls + b < CallCount(p + a + q)
    ensures b == CallCount(a) ==> calls + b == CallCount(p + a)
  {
    ExecWithin(s0, p, a, q, 0);
    ExecWithin(s0, p, a, q, b);
    CallCountAppend(p + a, q);
    CallCountAppend(p, a);
  }

  /**
   * Bookkeeping for one pass of the batch loop: when the calls for the keys
   * before `i` have all been accepted, `b` calls of key `i`'s action are `b`
   * more calls of the whole plan; falling short of the action stops the plan
   * short, and completing it completes the plan for the keys up to `i`.
   */
  lemma LoopStep(s0: HostState, keys: seq<string>, i: nat, buckets: map<string, seq<TabId>>, window: seq<Tab>,
                 existing: seq<TabGroup>, c: string, bucket: seq<TabId>, calls: nat, b: nat)
    requires i < |keys| && c == keys[i] && bucket == BucketOf(buckets, c)
    requires calls == CallCount(PlanFor(keys[..i], buckets, window, existing))
    requires b <= CallCount(CategoryAction(window, existing, c, bucket))
    ensures var plan := PlanFor(keys, buckets, window, existing);
            var action := CategoryAction(window, existing, c, bucket);
            && Exec(Exec(s0, plan, calls), action, b) == Exec(s0, plan, calls + b)
            && (b < CallCount(action) ==> calls + b < CallCount(plan))
            && (b == CallCount(action) ==> calls + b == CallCount(PlanFor(keys[..i + 1], buckets, window, existing)))
  {
    PlanSplit(keys, i, buckets, window, existing);
    ExecStep(s0, PlanFor(keys[..i], buckets, window, existing), CategoryAction(window, existing, c, bucket),
             PlanFor(keys[i + 1..], buckets, window, existing), calls, b);
  }
}
