# Home page of the Todo app, in Dafny

This project models the home page of a React Todo client (`src/pages/Home.jsx`).
The page has two parts.

**The `Home` component** holds five state slots:
- the display mode;
- the task-list collection;
- the selected list id;
- the tasks of the last task response to arrive (possibly `null`), which need not belong to the selected list;
- an error message.

These slots change on the following events:
- the lists fetch completing, with success or failure;
- the effect that selects the first list whenever the collection changes;
- `handleSelectList`, triggered by a click or by Enter;
- a task fetch completing;
- circular keyboard navigation with ArrowDown and ArrowUp;
- the display-mode select box.

**The `Tasks` component** is a pure view:
- it shows the completed or the open tasks depending on the mode;
- it writes the time left before a deadline as `"<d>日 <hh>時間 <mm>分"`, or `"期限切れ"` once the deadline has passed.

Modules:

- `Wrappers` (`wrappers.dfy`): `Option`, standing for the source's `undefined` / `null`.
- `Decimal` (`decimal.dfy`): `String(n)` for non-negative integers and `padStart`, with a read-back function `DigitsValue`.
- `Tasks` (`tasks.dfy`): the task filter, its membership, order and partition lemmas, and `remainingDate`, computed with integer arithmetic.
- `Home` (`home.dfy`): index navigation over the list collection, and the class `HomePage`, whose fields are the component's state slots and whose methods are its events.

Each HTTP request is modelled as a pending record: `listsPending` for the lists fetch, and one entry of `tasksPending` per task fetch.
Its completion is a separate method, `CompleteListsFetch` or `CompleteTasksFetch`, that the environment may call at any time.
Task fetches may complete in any order, so the last response to arrive wins, as it does in the browser.

`HomePage.Valid()` is the invariant every event keeps:
- a selection always names a list of the collection;
- a non-empty collection always has a selection;
- nothing is selected before the lists fetch completes.

## Model

| member | source | states |
|---|---|---|
| Decimal.NatToString | src/pages/Home.jsx:174 | `String(n)` of a day count is non-empty, starts with a digit, has no leading zero, and is one character long exactly when n < 10 |
| Decimal.NatToStringDigits | src/pages/Home.jsx:174 | every character of `String(n)` is a decimal digit |
| Decimal.NatToStringRoundTrip | src/pages/Home.jsx:174 | reading `String(n)` back as a decimal numeral gives n |
| Decimal.PadStart | src/pages/Home.jsx:174 | `padStart(len, c)` has length max(\|s\|, len), ends with s, and every character before s is c |
| Decimal.ZeroPad2 | src/pages/Home.jsx:174 | `String(n).padStart(2, "0")` for n < 100 is two digits that read back as n |
| Tasks.Filter | src/pages/Home.jsx:184-185 | `tasks.filter(...)` by the done flag is never longer than its input |
| Tasks.FilterMembers | src/pages/Home.jsx:184-185 | a task is in the filtered view iff it is in the input and its done flag is the wanted one |
| Tasks.FilterAt | src/pages/Home.jsx:203-204 | the j-th task of the filtered view is the input's task at the j-th kept position |
| Tasks.FilterReadsKept | src/pages/Home.jsx:203-204 | the filtered view is the input read at the kept positions in turn, so the original order is kept |
| Tasks.KeptIncreasing | src/pages/Home.jsx:203-204 | the kept positions are strictly increasing |
| Tasks.KeptExactly | src/pages/Home.jsx:184-185 | a position is kept iff its task has the wanted done flag |
| Tasks.FilterPartition | src/pages/Home.jsx:181-204 | the done and not-done filters together hold each task of the input exactly as often as the input, and their lengths add up to its length |
| Tasks.VisibleTasks | src/pages/Home.jsx:179-204 | `null` tasks give an empty view; otherwise a task is shown iff it is in `tasks` and its done flag equals (mode == "done") |
| Tasks.ViewsPartition | src/pages/Home.jsx:181-204 | the "done" view and any other mode's view are disjoint, and together they make up the task list as a multiset |
| Tasks.UnitsFromMinutes | src/pages/Home.jsx:170-172 | whole hours and whole days are whole minutes divided by 60 and by 60·24 |
| Tasks.RemainingOf | src/pages/Home.jsx:169-173 | the split is "expired" iff diff ≤ 0; otherwise hours < 24, minutes < 60, and days·86400000 + hours·3600000 + minutes·60000 ≤ diff < that + 60000 |
| Tasks.RemainingUnique | src/pages/Home.jsx:170-172 | for diff > 0, any days/hours/minutes within those bounds is exactly the split computed |
| Tasks.FieldsLayout | src/pages/Home.jsx:174 | the joined text is the day field, "日 ", a two-character hour field, "時間 ", a two-character minute field and "分", each at a fixed place |
| Tasks.FieldsReadBack | src/pages/Home.jsx:174 | a day field `ds` denoting `days`, followed by `padStart(2, "0")` of hours < 24 and of minutes < 60, gives text of length \|ds\| + 10 that starts with `ds`, whose separators sit at fixed places, whose hour and minute fields are two digits each, and whose three fields read back as days, hours and minutes |
| Tasks.NumeralFieldsReadBack | src/pages/Home.jsx:174 | when the day field is a numeral without leading zeros, the whole day field of that text is digits with no leading zero as well |
| Tasks.RenderReadsBack | src/pages/Home.jsx:173-174 | the text written for a split with hours < 24 and minutes < 60 has that layout; the day field is decimal digits with no leading zero, the hour and minute fields are two digits each, and the three fields read back as the split's days, hours and minutes |
| Tasks.RemainingDate | src/pages/Home.jsx:166-178 | `remainingDate` returns "期限切れ" iff the deadline is not after now |
| Tasks.RemainingDateReadsBack | src/pages/Home.jsx:166-178 | for a deadline after now, `remainingDate` is `"<d>日 <hh>時間 <mm>分"`: separators at fixed places, `<d>` decimal digits with no leading zero, `<hh>` and `<mm>` two digits each, and the three fields read back as exactly the days, hours and minutes of the split of deadline − now |
| Tasks.RemainingDateExample | src/pages/Home.jsx:166-178 | a deadline 1 day, 2 hours and 3 minutes ahead reads "1日 02時間 03分" |
| Home.FindIndex | src/pages/Home.jsx:20 | `findIndex`: the first position whose id is the selection, or -1 exactly when no list has it |
| Home.NextIndex | src/pages/Home.jsx:25 | the ArrowDown index stays within the collection |
| Home.NextIndexIsRemainder | src/pages/Home.jsx:25 | the ArrowDown index is `(i + 1) % n`: the next position, with the last wrapping to the first and "not found" going to 0 |
| Home.PrevIndex | src/pages/Home.jsx:30 | the ArrowUp index stays within the collection |
| Home.PrevIndexIsRemainder | src/pages/Home.jsx:30 | the ArrowUp index is `(i - 1 + n) % n`: the previous position, with the first wrapping to the last and "not found" going to the last but one |
| Home.ArrowTarget | src/pages/Home.jsx:20-31 | the id an arrow key selects belongs to a list of the collection |
| Home.ArrowDownModular | src/pages/Home.jsx:20-26 | ArrowDown from position i selects `lists[(i + 1) mod n].id` |
| Home.ArrowUpModular | src/pages/Home.jsx:20-31 | ArrowUp from position i selects `lists[(i - 1 + n) mod n].id` |
| Home.FindIndexOfPosition | src/pages/Home.jsx:20 | with distinct ids, looking up the id at position k finds k |
| Home.DownThenUpNeedsDistinctIds | src/pages/Home.jsx:20-31 | with a repeated id the round trip fails: in lists with ids b, a, b, ArrowDown from "a" selects "b" and ArrowUp from there selects "b" again, not "a" |
| Home.DownThenUpRestores | src/pages/Home.jsx:22-31 | with distinct ids, ArrowDown then ArrowUp returns to a selection found in the collection |
| Home.UpThenDownRestores | src/pages/Home.jsx:22-31 | with distinct ids, ArrowUp then ArrowDown returns to a selection found in the collection |
| Home.HomePage.constructor | src/pages/Home.jsx:10-14 | mounting starts in mode "todo" with no lists, no selection, empty tasks and no error, and issues the lists fetch |
| Home.HomePage.ListsChanged | src/pages/Home.jsx:54-71 | the lists effect selects `lists[0].id` and issues one task fetch for it; on an empty collection it changes nothing; no other slot changes |
| Home.HomePage.CompleteListsFetch | src/pages/Home.jsx:46-51 | success replaces the collection and runs the lists effect; failure keeps the collection and sets the lists-failure message plus the error text; tasks are untouched; Valid is kept |
| Home.HomePage.SelectList | src/pages/Home.jsx:73-87 | `handleSelectList(id)` selects id and issues exactly one task fetch for it; nothing else changes; Valid is kept |
| Home.HomePage.ClickList | src/pages/Home.jsx:123 | clicking the k-th list selects `lists[k].id` and issues one task fetch for it |
| Home.HomePage.CompleteTasksFetch | src/pages/Home.jsx:81-86 | the completed fetch leaves the pending ones; success sets `tasks` to the response's `tasks` and keeps the error message; failure keeps `tasks` and sets the task-failure message plus the error text; the selection is untouched |
| Home.HomePage.HandleKeyDown | src/pages/Home.jsx:19-37 | ArrowDown and ArrowUp change only the selection, to the next or previous list circularly, and fetch nothing; Enter keeps the selection and issues one task fetch for it; only these three keys are prevented; any other key changes nothing; Valid is kept |
| Home.HomePage.ChangeDisplayMode | src/pages/Home.jsx:17 | the select box sets the display mode and nothing else |
| Home.HomePage.Shown | src/pages/Home.jsx:145 | the page shows exactly the tasks in the `tasks` slot (those of the last task response to arrive, not necessarily of the selected list) whose done flag matches the current mode, and nothing while that slot is `null` |

## Left out

- The HTTP requests themselves are left out, as network I/O: the axios calls, their URLs, the `url` constant and the bearer token read from the cookie. Each request is a pending record, and its outcome is the `Response` given to the completion method.
- The bodies of responses are taken as already decoded. The lists response is a sequence of `TodoList`; the tasks response's `tasks` field is `Option<seq<Task>>`, so a `null` field becomes `None`.
- A task response without a `tasks` field stores `undefined`. The source's render then throws on `tasks.filter` (Home.jsx:184 and 203), since it checks only for `null`. That crash is not modelled.
- The text of an axios error is an opaque string parameter. The message is the fixed prefix followed by that text.
- Concurrency and scheduling: the event loop, and the order in which React re-renders and runs effects.
  - The lists effect is modelled as running immediately after the collection is replaced.
  - StrictMode's double run of effects in development is not modelled.
- Integer `/` and `%` stand for the source's `Math.floor` on doubles. The two agree whenever the clock reads at or after 1970 (now ≥ 0) and the deadline lies in the JavaScript Date range (at most 8.64·10^15 ms):
  - a positive diff is then an integer of at most 8.64·10^15, below 2^53, so `date - now` is exact;
  - a quotient `diff / d` that is not an integer lies at least 1/d from the nearest integer, and half a unit in the last place of the rounded quotient is smaller (7.45·10^-9 for days, 2.38·10^-7 for hours, 1.53·10^-5 for minutes, against 1/d = 1.16·10^-8, 2.78·10^-7 and 1.67·10^-5), so `Math.floor` gives the integer quotient;
  - `%` on a positive double is exact, so `Math.floor(x % 24)` is `Math.floor(x) % 24`.
- With a clock reading before 1970, two dates in the Date range can differ by more than 2^53 ms. `date - now` then rounds, and the source's fields can differ from the integer split: deadline 8640000000000000 and now −400000000019999 give 7 minutes in double arithmetic and 6 in the model. For such clocks the model gives the exact integer split, not the source's rounded one.
- Tasks.FieldsLayout: states only where each part of the joined text sits, for any two-character hour and minute fields; that those fields are digits is stated by `FieldsReadBack`, `RenderReadsBack` and `RemainingDateReadsBack`, which pass it the padded numbers.
- Date handling is left out, because it calls locale and date-library code:
  - `new Date(...)` parsing is not modelled; deadlines and the current time are integers in milliseconds supplied by the caller;
  - `formatDate` and `toLocaleString` are not modelled.
- Decimal.NatToString: writes every day count in positional decimal. JavaScript switches to exponential notation from 10^21 upward, which no realistic deadline reaches.
- Rendering is left out as UI: JSX, router links, CSS classes and ARIA attributes. `preventDefault` is recorded as the boolean `HandleKeyDown` returns.
- Home.HomePage.HandleKeyDown: requires a non-empty collection for ArrowDown and ArrowUp. On an empty collection the source takes `% 0`, which is `NaN`, and then throws on `lists[NaN].id`. That crash is not modelled.
- Home.HomePage.SelectList: requires its argument to be the current selection or the id of a list in the collection. Those are the only values its two callers, the click handler and Enter, pass.
- Home.HomePage.CompleteListsFetch: requires the lists fetch to be pending. The source issues that fetch once, on mount.
- The repeated-press property is not stated: pressing ArrowDown |lists| times returns to the start. Only the single-step round trips `DownThenUpRestores` and `UpThenDownRestores` are proved.
- `eslint.config.mjs` is left out; it has no program logic.
