# Tab Manager extension: categorising and grouping tabs

This project models the core of a browser extension that sorts open tabs into
tab groups by category. It has two scripts.

- The background script (`background.js`):
  - `getTabCategory` finds the first category whose URL pattern occurs in a tab's URL, or falls back to "Others".
  - A fixed colour table gives each category's colour.
  - `groupTabByCategory` puts one tab into the group titled with its category, creating that group if needed.
  - `groupTabsByCategories` buckets all tabs of the current window by category. For each bucket it then adds the missing tabs to the existing group of that title, or creates one group for the whole bucket.
  - `debounce` coalesces bursts of calls.
- The group-settings page (`group_settings.js`):
  - Its "Save All Groups" handler turns each entered URL into an escaped hostname pattern. It validates all forms with one sticky flag and rejects duplicate group names.
  - Before display, its cleanup removes duplicate URLs and drops the "Others" group.

The browser is a class `Host.Browser` whose tab and group lists its methods
update. Each call that changes the browser may be rejected; whether it is,
is not under the script's control. The two grouping functions are methods of
module `Grouping` that take the browser as a parameter. Each is proved against a pure plan: the sequence of
`Join`/`Create` actions it requests (module `Plans`). `Plans.Exec` gives the
state after the first `calls` host calls of the plan succeed. The methods
return `failed`, whether their `catch` branch ran. Module `BatchOutcome`
proves where every tab ends up when no call is rejected. Module `Debounce`
replaces timers with an explicit clock.

Modules, one per file: `Wrappers` (Option), `Seqs` (first-occurrence
deduplication), `Categories`, `Host`, `Plans`, `Grouping`, `BatchOutcome`,
`Debounce`, `GroupSettings`.

Facts about the scripts that shape the model:
- Categories come from a constant table in `getTabCategory`. Nothing edits it at run time.
- A group's colour comes from the constant colour table, with grey as the fallback.
- Grouping a tab ends with the browser calls. Nothing else is told about it.
- The whole batch loop sits in one `try`, so one rejected call ends the batch: later categories are not grouped.
- In the save handler, a URL without a scheme, such as `google.com`, passes the URL-syntax check, because the check makes the scheme optional. `new URL` then throws on it. Nothing catches that error, so the handler stops and sends nothing.

## Model

| member | source | states |
|---|---|---|
| Categories.Occurs | background.js:17 | `pattern.test(url)` for a literal pattern: an unanchored search. `Categories.OccursHasIndex` and `Categories.OccursFromIndex` state its meaning. |
| Categories.OccursHasIndex | background.js:16-17 | A hit of the unanchored search is an occurrence of the pattern at some index of the URL. |
| Categories.OccursFromIndex | background.js:16-17 | An occurrence at any index is found by the search (the converse). |
| Categories.ScanPatterns | background.js:16-18 | The inner loop reports a hit exactly when some pattern of the category occurs in the URL. |
| Categories.FirstCategory | background.js:15-19 | The outer loop over the table rows. `Categories.FirstCategorySpec` states its result. |
| Categories.FirstCategorySpec | background.js:15-20 | No hit means no row matches. A hit is a row that matches, and every earlier row does not. |
| Categories.CategoryOf | background.js:2-21 | The result is one of the nine table keys or "Others". |
| Categories.CategoryOfIsFirstMatch | background.js:3-20 | The result is "Others" iff no category has a pattern in the URL. Otherwise it is the first category in table order that has one. |
| Categories.EarlierCategoryWins | background.js:4-19 | A URL containing both "google.com" and "github.com" is categorised "Search". |
| Categories.ColorFor | background.js:62 | The table's colour for a category, or grey when it has none. `Categories.ColorIsTabled` states which colour a tab gets. |
| Categories.ColorIsTabled | background.js:24-35 | Every category the matcher returns has a colour-table entry. The applied colour is therefore the table's, and it is grey only for "Social" and "Others". |
| Seqs.FirstIndex | group_settings.js:211 | The index returned holds `x`, and `x` does not occur before it. |
| Seqs.Dedup | group_settings.js:211 | `Array.from(new Set(xs))`. `Seqs.DedupSpec` states its result. |
| Seqs.DedupSpec | group_settings.js:211 | `Array.from(new Set(xs))` has no duplicates. It holds exactly the elements of `xs`, in order of first occurrence. |
| Host.InWindow | background.js:77 | The window query returns exactly the tabs of that window. |
| Host.NewGroupWellFormed | background.js:99 | A created group gets a fresh id, and the browser stays well formed. |
| Host.RetitleWellFormed | background.js:100 | Retitling changes no group id, and the browser stays well formed. |
| Host.AddTabs | background.js:96 | The browser state after an accepted `chrome.tabs.group` call with an existing group: the listed tabs are put into that group. Its properties are stated by `Host.AddTabsMoves`. |
| Host.NewGroup | background.js:99 | The browser state after an accepted `chrome.tabs.group` call without a group: a new untitled group with the next free id holds the listed tabs. Its properties are stated by `Host.NewGroupWellFormed` and `Host.CreateRetitled`. |
| Host.Retitle | background.js:100 | The browser state after an accepted `chrome.tabGroups.update`: that group gets the title and colour. Its properties are stated by `Host.RetitleWellFormed` and `Host.CreateRetitled`. |
| Host.AddTabsMoves | background.js:96 | Adding tabs to an existing group keeps the browser well formed. Every listed tab present is then in that group, and every other tab is as it was. No tab changes anything but its group, and the groups are untouched. |
| Host.CreateRetitled | background.js:99-100 | Creating a group and retitling it appends exactly one group, with the fresh id, the title and the colour. Earlier groups are unchanged, the listed tabs move into it, and the browser stays well formed. |
| Host.Browser.QueryGroups | background.js:88 | The group query returns the browser's groups. |
| Host.Browser.QueryCurrentWindow | background.js:77 | The tab query returns the tabs of the current window. |
| Host.Browser.Group | background.js:96 | The call is rejected at least when the group does not exist. If accepted, the listed tabs move into the group; if rejected, nothing changes. |
| Host.Browser.CreateGroup | background.js:99 | The call is rejected at least for an empty id list. If accepted, a new untitled group with the next id holds the listed tabs. |
| Host.Browser.Update | background.js:100 | If accepted, only that group's title and colour change. |
| Plans.FirstTitled | background.js:91 | `find` returns the first group with that title, or none iff no group has it. |
| Plans.Exec | background.js:90-105 | The browser after the first `budget` calls of a plan are accepted, with the next call rejected. The one `try` around the loop makes that rejection end the run. `Plans.ExecAppend`, `Plans.ExecStopsEarly` and `Plans.ExecStep` state how it composes. |
| Plans.ExecStopsEarly | background.js:90-105 | Once a call is rejected inside one category's action, no later category's action takes effect. |
| Plans.ExecAppend | background.js:90-102 | Completing one part of the plan and then part of the next equals running that many calls of the whole plan. |
| Plans.ExecAll | background.js:90-102 | Running all of two consecutive parts of the plan equals running all of the first and then all of the second. |
| Plans.ExecStep | background.js:90-105 | Once all calls before a part are accepted, `b` calls into that part are `b` more calls of the whole plan. Falling short of the part stops the whole plan short. |
| Plans.Keys | background.js:80-90 | The keys of `categories` in insertion order. `Plans.KeysSpec` states what they are. |
| Plans.IdsIn | background.js:80-86 | The ids pushed under one key. `Plans.IdsInSpec` states which they are. |
| Plans.Buckets | background.js:78-86 | The `categories` object of a window. `Plans.BucketsAppend` and `Plans.BucketOfBuckets` state its contents. |
| Plans.IdsInSpec | background.js:80-86 | A category's bucket holds a tab id iff some window tab with that id has that category. |
| Plans.KeysSpec | background.js:80-90 | The keys of `categories` are exactly the window's categories, each once. |
| Plans.PartitionCovers | background.js:80-86 | Every window tab's id is in the bucket of its own category. The buckets together hold as many entries as the window has tabs, so each tab is in exactly one bucket. |
| Plans.BucketsAppend | background.js:80-86 | One more tab pushes its id onto its own category's bucket, starting that bucket if needed. No other bucket changes. |
| Plans.BucketOfBuckets | background.js:80-90 | Reading the object built from the window gives, for every category, the ids of that category's window tabs. |
| Plans.NotYetIn | background.js:94 | The filter keeps exactly the bucket's ids that are not already in the found group. |
| Plans.CategoryAction | background.js:91-101 | The calls one loop pass asks for. `Plans.CategoryActionSpec` states what they are. |
| Plans.PlanFor | background.js:90-102 | The calls the loop asks for over the given keys, in key order. `Plans.PlanSplit` and `Plans.ExecStep` relate it to one pass. |
| Plans.Plan | background.js:70-106 | Every call `groupTabsByCategories` asks for. `BatchOutcome.FullRunOutcome` states where the tabs end up once all are accepted. |
| Plans.CategoryActionSpec | background.js:91-101 | With a group of that title, the batch adds exactly the bucket's tabs not yet in it, and makes no call when there are none. Without one, it creates one group holding the whole bucket, titled with the category and coloured from the table. |
| Plans.JoinActionMoves | background.js:91-97 | For a category with a group of its title, running its action in full moves exactly the missing tabs into that group, whether or not any are missing. |
| Plans.LoopStep | background.js:90-105 | After one category's calls, the browser is the plan run that far. A rejected call means the plan stopped short. |
| Grouping.TabAction | background.js:54-63 | What `groupTabByCategory` asks for: join the first group titled with the category, or create one. `Grouping.GroupTabOutcome` states the result. |
| Grouping.GroupTabOutcome | background.js:54-63 | When all calls succeed, the tab joins the first group titled with its category, and the groups are unchanged. With no such group, exactly that tab ends up in a new group titled with the category and coloured from the table. No other tab moves. |
| Grouping.GroupTab | background.js:47-67 | Without the tab-groups API, nothing changes. Otherwise the browser is the tab's action run for `calls` calls, never more than the action makes. The catch branch runs iff a call was rejected. |
| Grouping.Partition | background.js:78-86 | The object built in place is the window's `categories` object: its keys are the window's categories in insertion order, and each key maps to the ids of that category's tabs, in window order. |
| Grouping.GroupCategory | background.js:91-101 | One loop pass runs the category's action until a call is rejected. |
| Grouping.GroupKey | background.js:90-102 | One loop pass, seen from the whole plan: the browser is the plan run for `calls'` calls. A completed pass completes the plan for the keys so far, and a rejected call leaves the plan stopped short. |
| Grouping.GroupEach | background.js:90-105 | The loop leaves the browser as the plan for the keys run for `calls` calls, never more than the plan makes. It reports failure iff it stopped before the end. |
| Grouping.GroupTabsByCategories | background.js:70-106 | Without the API, nothing changes. Otherwise the browser is the plan for the window's buckets run for `calls` calls, never more than the plan makes. The catch branch runs iff a call was rejected, and nothing after the rejected call happens. |
| BatchOutcome.BucketIsCategory | background.js:80-86 | With distinct tab ids, a tab's id is in a bucket iff the tab is in the window and has that category. |
| BatchOutcome.AlreadyInMeans | background.js:94 | A tab the snapshot shows in the group is that tab itself, already in the group. |
| BatchOutcome.Advance | background.js:94-101 | After one category is handled, all its window tabs are in a group of its title. Other tabs keep their group, and no existing group is lost. |
| BatchOutcome.JoinStep | background.js:91-97 | For a category with a group of its title, all its window tabs end up in the first such group, and the groups are unchanged. |
| BatchOutcome.CreateStep | background.js:98-101 | For a category without one, exactly one group is appended: it has the next free id, the category as title and the table colour. All the category's window tabs end up in it. |
| BatchOutcome.PrefixOutcome | background.js:90-102 | After the first `i` categories, their window tabs are in groups of their titles, and every other tab is where it was. |
| BatchOutcome.ExecNextKey | background.js:90-102 | Running the plan for one more key in full equals running that key's action after the plan for the keys before it. |
| BatchOutcome.WindowTabIsKeyed | background.js:77-90 | The category of every tab of the window is a key of the `categories` object. |
| BatchOutcome.FullRunOutcome | background.js:70-106 | When no call is rejected, every window tab is in a group titled with its category. The existing groups survive unchanged as a prefix, and tabs of other windows keep their group. |
| Debounce.Step | background.js:38-43 | One event for the debounced function: a call re-arms the timer, and the clock reaching a due timer fires it. The lemmas below state what traces of events do. |
| Debounce.Run | background.js:38-43 | A trace of events, in order. |
| Debounce.BurstKeepsLast | background.js:38-43 | After a burst of calls, exactly one timer is pending, armed by the last call with its arguments, and nothing has fired. |
| Debounce.OnlyLastFires | background.js:38-43 | When the clock reaches the last call's deadline, `func` runs once with the last arguments. Before that deadline, nothing runs. |
| Debounce.RunAppend | background.js:38-43 | Running two event traces in turn equals running their concatenation. |
| Debounce.FiresAtMostOnce | background.js:42 | A fired timer is spent: with no new call, the clock running on fires nothing more. |
| Debounce.FiredOnlyGrows | background.js:38-43 | Calls of `func` are never retracted, and at most one happens per event. |
| Debounce.Debouncer.constructor | background.js:38-39 | `debounce(func, delay)` keeps the delay, with no timer pending and nothing called yet. |
| Debounce.Debouncer.Invoke | background.js:40-42 | A call cancels the pending timer and arms a new one for `at + delay` with its own arguments. |
| Debounce.Debouncer.Elapse | background.js:42 | The clock reaching a due timer runs `func` with its arguments once and clears it. Otherwise nothing happens. |
| GroupSettings.ReplaceFirst | group_settings.js:139 | `replace` with a string pattern. Its meaning is stated by `GroupSettings.ReplaceFirstSpec` and `GroupSettings.ReplaceFirstAbsent`. |
| GroupSettings.EscapeDots | group_settings.js:140 | `replace(/\./g, '\\.')`. The result is never shorter than its input. `GroupSettings.DotsEscaped` and `GroupSettings.UnescapeEscapeDots` state what it does. |
| GroupSettings.Simplify | group_settings.js:139-140 | The pattern stored for a hostname. `GroupSettings.SimplifyShape` states its shape. |
| GroupSettings.ReplaceFirstSpec | group_settings.js:139 | `replace('www.', '')` removes the first occurrence of "www.", wherever it is, and nothing else. |
| GroupSettings.ReplaceFirstAbsent | group_settings.js:139 | Without an occurrence, the hostname is unchanged. |
| GroupSettings.DotsEscaped | group_settings.js:140 | Every dot of the escaped string is preceded by a backslash. |
| GroupSettings.UnescapeEscapeDots | group_settings.js:140 | Escaping loses nothing: reading `\.` back as a dot recovers the original string. |
| GroupSettings.SimplifyShape | group_settings.js:136-140 | The stored pattern reads back as "/" + hostname, first "www." removed, + "/", with every dot escaped. |
| GroupSettings.PatternBodyOccursInHost | group_settings.js:139 | The pattern body is the hostname itself when it contains no "www.". When the hostname starts with "www.", the body is the rest of it, which occurs in it. |
| GroupSettings.InnerWwwIsRemoved | group_settings.js:139 | The removal is not anchored: "xwww.a.com" becomes "xa.com", which is not a substring of the hostname. |
| GroupSettings.Throws | group_settings.js:137-138 | `new URL` is reached, because the URL passed the syntax check, and throws. |
| GroupSettings.PatternOf | group_settings.js:136-146 | One URL input's pattern: the simplified hostname when the URL is valid, else "". |
| GroupSettings.ConfigOf | group_settings.js:171-175 | The configuration a form is stored as: its name, its colour and its URL patterns. |
| GroupSettings.GroupName | group_settings.js:115-117 | The selected name, or the custom name when "other" is selected. |
| GroupSettings.FormOk | group_settings.js:121-161 | A form passes its own checks: every URL is valid, and a name and a colour are chosen. |
| GroupSettings.SimplifyUrls | group_settings.js:121-147 | `thrown` holds iff some URL passes the syntax check but `new URL` throws on it, and then no patterns result. Otherwise each URL maps to its pattern if valid, else to "", and the flag is cleared iff some URL is invalid. |
| GroupSettings.NamesOf | group_settings.js:163 | The names of the collected configurations, one per configuration, in order. |
| GroupSettings.SaveForm | group_settings.js:111-177 | `thrown` holds iff `new URL` throws on one of the form's URLs, and then nothing changes. Otherwise the flag stays set iff it was set, the form passes its checks and its name is not among the collected names. The form is collected iff the flag stays set. |
| GroupSettings.SaveStep | group_settings.js:111-177 | Handling one more form keeps the loop's invariant. The flag is set iff every form so far was collected, and the collected ones are the first forms, each passing. If a form was left out, the form after the collected ones fails. |
| GroupSettings.AcceptedAll | group_settings.js:149-168 | All forms pass iff each passes its checks and no name repeats. A failing prefix fails the whole list. |
| GroupSettings.SaveGroups | group_settings.js:107-179 | `thrown` holds iff `new URL` throws on a URL of some form, and then nothing is sent. Otherwise the save is valid iff every form has valid URLs, a name, a colour and a name not used before. `groups` holds the forms up to the first failing one, each as its configuration. The flag never comes back once cleared, and all forms are sent iff it stays set. |
| GroupSettings.DedupUrls | group_settings.js:210-212 | Each group's URLs replaced by `Array.from(new Set(urls))`. The number of groups is unchanged. |
| GroupSettings.DropOthers | group_settings.js:214 | The filter on the name "Others". `GroupSettings.DropOthersKeeps` states what it keeps. |
| GroupSettings.CleanUp | group_settings.js:209-214 | Deduplication, then the filter. `GroupSettings.CleanUpSpec` states the result. |
| GroupSettings.DropOthersKeeps | group_settings.js:214 | The filter keeps exactly the groups not named "Others", in their original order. |
| GroupSettings.KeptBelowSpec | group_settings.js:214 | The kept indices ascend and are exactly those of the groups not named "Others". |
| GroupSettings.DropOthersAt | group_settings.js:214 | The `k`-th kept group is the group at the `k`-th kept index. |
| GroupSettings.CleanUpSpec | group_settings.js:209-214 | No "Others" group remains, and the other groups keep their order, name and colour. Each group's URLs are its stored URLs without duplicates, each kept at its first occurrence. |

## Left out

- All browser calls are modelled as the methods of `Host.Browser` on an abstract state. Their asynchrony and interleaving with other events are not modelled.
- `chrome.tabGroups.query` and `chrome.tabs.query` are modelled as never failing. Their rejections would also end in the `catch` branch.
- A rejected call is nondeterministic, with no reason attached. The rejections the model fixes are joining a missing group, creating a group from no tabs and retitling a missing group.
- The new group's initial colour (grey in the model) is the browser's choice and is never observed.
- The browser removing groups that become empty is not modelled.
- The browser moving tabs when it groups them is not modelled. It keeps a group's tabs next to each other in the tab strip, and it moves a tab into the window of a group that lies in another window. The model keeps every tab at its position and in its window, and changes only its group.
- The `console` logging in the `catch` branches is modelled only as the `failed` result.
- `saveTabsAutomatically`, the storage snapshot (background.js:109-127), is not part of this model.
- The interval and event listeners (background.js:133-178) and the message router (background.js:181-198) are I/O wiring and not part of this model.
- `setTimeout`/`clearTimeout` become an explicit clock. What `func` does is not modelled: each firing appends its arguments to `fired`.
- General regular expressions are not modelled. Every table pattern is an escaped literal, so matching is unanchored, case-sensitive substring search.
- The URL-syntax regular expression (group_settings.js:128-133) and `new URL(...).hostname` (group_settings.js:138) are parameters `validUrl` and `hostname` of the save handler. `hostname(u)` is `None` when `new URL(u)` throws. Which URLs those are is not modelled.
- The DOM is not modelled: form construction, error texts, `alert`, `renderSavedGroups`' HTML and the response callback. A form is a value holding its select, custom-name, colour and URL fields.
- `chrome.runtime.sendMessage` is not modelled: the configurations are sent iff `SaveGroups` returns `isValid`, and they are `groups`. When it returns `thrown`, `isValid` is false, because the handler stopped before the send.
- The stored configurations in `renderSavedGroups` are taken as given: `response.groupConfigs || []` is the caller's input to `CleanUp`.
- popup.js is not part of this model.
- Grouping.GroupTabsByCategories and Grouping.GroupTab: the ghost `calls` count is the model's device for naming how far the run got. The script itself only observes whether the `catch` branch ran.
