# wgo: models and proofs

This project models, in Dafny, the parts of the wgo framework whose correctness is hardest to see
from the code, and proves what they promise. Code that changes things in place is modelled in
place: classes with the source's fields, loops, jumps and arrays, each proved against a function
or a property that the lemmas are about.

- **Cron schedules** (`Calendar`, `CalendarFacts`, `Bits`, `CronSpec`, `CronDelay`): time is whole
  seconds plus nanoseconds in a zone of fixed offset, with the proleptic Gregorian calendar, whose
  dates, weekdays and clock `CalendarFacts` ties to known days. `CronSpec.Next` is
  the five-level search with its jump to the top. It returns the first matching second of the next
  five years, and zero when there is none, in exactly the zones that are whole minutes ahead of
  UTC: `Truncate` works on absolute time, so in any other zone the search can skip a second.
- **Cron specs** (`CronParser`, with `Texts` and `Decimals`, and `CronMeaning`): texts to masks, and
  from the text of a spec to the times it matches, for every form of an item, every descriptor, and
  two specs followed to the calendar.
- **Cron scheduler** (`CronRun`): the loop over timer, add, snapshot and stop events on a list of
  entries that is sorted in place.
- **HTTP router** (`RouteTree`, `RouteSearch`, `RouteRun`, `RouteBack`, `Router`, `RouteShort`,
  `RouteDepth`, `RouteInputs`): a radix tree on the heap. `RouteTree` says what one insertion does to the tree as a
  value, `RouteSearch` what the search may rely on at each of its labels, `RouteRun` what the search
  answers as a function, and `Router` proves the code that works in place against these. As a map, the
  tree holds the last handler added for each method and erased path, and for each erased path the
  names and pristine path of the last route with a handler. A request that follows a pattern with
  nothing competing gets that route, and `RouteBack` says when the search falls back from a static
  sibling to a parameter, and from a parameter to a star. `RouteShort` and `RouteDepth` say for which routes one value, the
  router's depth, is enough for every request, and `RouteInputs` what happens where it is not.
- **Nested transactions** (`NestedTransactions`, `Transactions`): a stack of snapshots, and the
  SQL savepoints that implement it; what is durable is what the surviving changes make of the first
  data. The program forgets a savepoint on rollback, the database keeps
  it; the proof relates the two although they hold different lists.
- **Cache** (`CacheModel`, `Cache`): sorted groups of eight entries with a binary search. What
  follows from search and insertion together is that only the last entry of a group is ever
  written, so the cache is 4096 lines of one key each.
- **Worker pool** (`WorkerPool`, `Jobs`): goroutines and channels as interleaved steps, and what
  one worker does with one job.
- **Statements for records** (`BindPlan`, `OptimisticLock`, `InsertDelete`): which columns an
  update, insert or delete sends, which placeholder takes which argument, and what the version
  column is worth when clients interleave.
- **Query builder** (`SqlText`, `SqlCondition`, `SqlCalls`, `SqlBuilder`): the text of a query from
  the calls on its builder; replacing `?` by `$$` one at a time
  and `$$` by `?` at the end, against one pass over a template, for any calls on a new builder.
- **Short UUIDs** (`ShortUuid`): 128 bits in 22 letters, and back.

Where the code falls short of its promise, the condition under which it holds is stated as an "if
and only if", and where more than one lemma is named, the others show inputs that fail: zones of odd
seconds (`CronSpec.ExactlyMinuteZones`, `CronSpec.OddZoneMisses`), a clock set back behind an
earlier launch before a scheduler starts again (`CronRun.RestartInOrder`, `CronRun.ClockSetBack`),
parameter names that two methods give the same path differently (`Router.NamesOfFound`,
`RouteInputs.NamesOfOther`), routes with requests that the router's depth has too few values for
(`RouteDepth.DepthIsEnough`, `RouteInputs.RequestPanics`, `RouteInputs.RequestNeverEnds`), expiry
beyond 32 bits (`CacheModel.ExpiryIsExact`), a pool of no workers (`WorkerPool.RunsServe`), numbered
placeholders next to stamped columns (`BindPlan.NumbersAgree`, `BindPlan.StampedIsMisnumbered`),
updates that set nothing (`BindPlan.UpdateExecutes`), updates of records at version 0
(`OptimisticLock.ZeroVersionIsStuck`), inserts of records at any other
(`InsertDelete.InsertedVersion`), numeric condition texts with spaces
(`SqlCondition.NumericTextBinds`), condition texts with too few or too many `?`
(`SqlCondition.TextAligns`, `SqlCondition.MarksWithoutVariables`), texts where `$` meets `$` or a
placeholder (`SqlCondition.TextStays`, and for whole queries the condition in
`SqlBuilder.QueryAligns`), and UUIDs with many leading zeros (`ShortUuid.RoundTrip`).

Where comments or names in the source say otherwise, the model follows the code: `Del` of the cache
never reports that a key was there (cache/bucket.go:109-124), an update of a row that is gone reports
the error of reading it back rather than a lock error without a row (gorp/gorp.go:2132-2146), `*-5`
is accepted as `*` (cron/parser.go:217-220), and quoting a column in a condition adds the table
alias behind it (gorp/builder.go:126-128).

Verify with `dafny verify dfyconfig.toml`.

## Model

| member | source | states |
|---|---|---|
| CronSpec.Next | cron/spec.go:55-145 | the jumping five-level search returns what the one-step-at-a-time search returns |
| CronSpec.SearchStep | cron/spec.go:80-142 | every step of any field leaves the outcome unchanged and comes closer to the year limit, so the search ends for all masks, empty ones included |
| CronSpec.StepAdvances | cron/spec.go:80-142 | each of the five kinds of step moves strictly forward to a whole second of the same zone, in any zone and with or without the reset |
| CronSpec.StepReachesUnitEnd | cron/spec.go:80-142 | in a zone of whole minutes a step lands exactly on the end of the month, day, hour, minute or second that did not match |
| CronSpec.NothingInUnit | cron/spec.go:80-142 | nothing that a step passes over matches |
| CronSpec.UnitEndAligned | cron/spec.go:82-142 | after a step every finer field is at its minimum, after carries through WRAP too |
| CronSpec.OneResetSuffices | cron/spec.go:68-142 | in a zone of whole minutes resetting once gives the same result as resetting at every step |
| CronSpec.SearchSound | cron/spec.go:73-144 | a result is the zero time or a matching second within the year limit |
| CronSpec.SearchMissesNothing | cron/spec.go:73-144 | in a zone of whole minutes no matching second within the limit is earlier than the result |
| CronSpec.NextIsFirst | cron/spec.go:53-145 | for all masks and all times of a zone of whole minutes Next is the least matching second later than the time and at most five years on, or zero if there is none |
| CronSpec.ZeroMeansNone | cron/spec.go:70-76 | in a zone of whole minutes the result is the zero time exactly when no second is admissible, or when the first one is the zero time itself, for times before it |
| CronSpec.NextIsZeroOrLater | cron/spec.go:53-145 | in every zone the result is zero or a matching second strictly later |
| CronSpec.OddZoneMisses | cron/spec.go:120-130 | in any zone that is not whole minutes ahead an admissible second is skipped |
| CronSpec.ExactlyMinuteZones | cron/spec.go:53-145 | Next keeps its promise for all masks and times of a zone if and only if the offset is whole minutes |
| CronMeaning.NextInWords | cron/spec.go:53-145 | in a zone of whole minutes the result is a later whole second at which the schedule matches, no later than the fifth year, with no such second before it; or zero, and then there is none |
| CronMeaning.LaterSteps | cron/spec.go:80-142 | a step behind another moves by exactly one month, day, hour, minute or second and keeps what the clock shows below |
| Calendar.DateOfDayNumber | cron/spec.go:85-101 | the civil date of a day number is the inverse of the day number of a date, which dates that overflow a month rely on |
| CalendarFacts.EpochWasThursday | cron/spec.go:147-158 | 1 January 1970 is day 4 of the week, Sunday being 0, whatever the hour and the zone |
| CalendarFacts.NextDayOfWeek | cron/spec.go:147-158 | the weekday is the same all day and moves by one, from Saturday to Sunday, with the next date of the calendar |
| CalendarFacts.WeekdayOf | cron/spec.go:147-158 | the weekday of every date, counted from that Thursday |
| CalendarFacts.ClockShows | cron/spec.go:85-101 | an instant shows the date and the time of day that it was made from, in its own zone |
| CalendarFacts.ClockIsUnique | cron/spec.go:85-101 | only one instant of a zone shows a given date and time of day |
| CalendarFacts.ZonesAreAhead | cron/spec.go:68-76 | a zone that is ahead shows what another shows that much later |
| CalendarFacts.ZeroTimeIs | cron/spec.go:70-76 | in UTC the zero time, and nothing else, shows midnight of 1 January of year 1 |
| CalendarFacts.InstantsAreNumbers | cron/spec.go:55-70 | instants are ordered and moved by their nanoseconds, in whatever zone they are seen |
| CronDelay.EveryActivations | cron/constantdelay.go:11-27 | activations fall on whole seconds, strictly later, at the duration's whole seconds or one second |
| CronParser.GetBits | cron/parser.go:296-309 | the mask has exactly the bits from min to max in steps, by shifts for step 1 and by the loop otherwise |
| CronParser.ShiftedBits | cron/parser.go:299-302 | the shift form has the bits of the stepping loop with step 1 |
| CronParser.ReadRange | cron/parser.go:207-267 | the ends and the step of an item, or the first error in the order of the checks |
| CronParser.GetRange | cron/parser.go:207-270 | the mask of an accepted item has exactly the values it covers, and the star bit exactly if it is starred |
| CronParser.ItemForms | cron/parser.go:204-250 | which values each of the four forms of an item of numbers or names covers: the value alone, the range, every step-th from the value up to the maximum, every step-th of the range; and none of them when its ends are out of bounds or out of order or the step is 0 |
| CronParser.StarForms | cron/parser.go:217-250 | a star or question mark covers the whole field, and with a step every step-th value from the minimum, whatever follows a hyphen |
| CronParser.ItemErrors | cron/parser.go:254-267 | the error of an item whose numbers can be read: start below the minimum, end above the maximum, start behind the end, step 0, checked in this order |
| CronParser.FirstRefused | cron/parser.go:216-225 | an item whose first number cannot be read is refused with that error, whatever follows |
| CronParser.HyphensRefused | cron/parser.go:207-233 | two hyphens are refused |
| CronParser.SecondRefused | cron/parser.go:226-231 | an item whose second number cannot be read is refused with that error |
| CronParser.StepRefused | cron/parser.go:236-253 | a step that cannot be read is refused, and so are two slashes |
| CronParser.NumbersRead | cron/parser.go:281-293 | digits are the number they show up to the largest of 64 bits, also behind a plus; behind a minus only zero is accepted; each refusal with its error |
| CronParser.OtherTextsAreNoNumbers | cron/parser.go:281-285 | a text that is not digits behind one sign or none is no number |
| CronParser.NamesRead | cron/parser.go:272-279 | a name in any case is read as its number, and every other text as a number |
| CronParser.CalendarNames | cron/spec.go:23-45 | jan to dec are the months 1 to 12 and sun to sat the weekdays 0 to 6, and there are no other names |
| CronParser.CommaJoins | cron/parser.go:191-202 | a field with a comma covers what its item before the comma or the rest covers |
| CronParser.CommaErrors | cron/parser.go:191-202 | the error of a field is that of its first refused item from the left, and empty items are passed over |
| Texts.CharactersAre | cron/parser.go:85-86 | letters between A and Z have their small letter, and the six ASCII spaces separate fields |
| CronParser.GetField | cron/parser.go:191-202 | a bit is set exactly when some item between commas covers it, the star bit when some item is starred; otherwise the error of the first refused item |
| CronParser.WithinBounds | cron/parser.go:256-261 | no bit but the star bit lies outside the bounds of the field |
| CronParser.ExpandFields | cron/parser.go:141-156 | the given fields go to the places of the options in order, the rest are defaults, and no read is past the fields |
| CronParser.NewParserIsFromOptions | cron/parser.go:66-73 | a parser made from any options is one that Parse can rely on |
| CronParser.ParseFields | cron/parser.go:109-129 | six fields to six masks, or the error of the first field in order that is refused |
| CronParser.Parse | cron/parser.go:78-139 | a spec is accepted exactly when its field count is right and every item of every field is, and then the masks are what the fields say; each error in its case |
| CronParser.DescriptorsMean | cron/parser.go:317-368 | each descriptor has the masks of the six-field spec that it abbreviates |
| CronParser.ParsedMatches | cron/spec.go:147-158 | the schedule of a spec matches a time exactly when its fields cover the time's parts, with both days asked for when one day field is starred and either otherwise |
| CronMeaning.SpecWords | cron/parser.go:85-86 | the words of a spec are what stands between its spaces |
| CronMeaning.SpecsOfParsers | cron/parser.go:78-172 | the default parser takes five or six words and the standard one five, both look up what begins with `@`, and all six fields must be accepted, each in its own bounds |
| CronMeaning.WordsOfOptions | cron/parser.go:141-188 | with all options the words are second, minute, hour, day of month, month and weekday in this order; the standard parser has second 0; an optional weekday left out is a star |
| CronMeaning.DefaultFields | cron/parser.go:36-52 | a field without an option covers 0 for second, minute and hour, and every value for days and months |
| CronMeaning.DescriptorTimes | cron/parser.go:317-356 | when each named descriptor matches, by the clock and the calendar |
| CronMeaning.EveryDescriptor | cron/parser.go:358-365 | `@every` with a duration is its delay, and with a text that is none its error |
| CronMeaning.UnknownDescriptor | cron/parser.go:367 | every other descriptor is refused |
| CronMeaning.QuarterHours | cron/parser.go:239-269 | `0 */15 * * * *` is accepted and matches exactly at second 0 of the minutes 0, 15, 30 and 45 |
| CronMeaning.MondayAtNine | cron/spec.go:147-158 | `0 0 9 * * mon` from midnight of Monday, 1 January 2024, in UTC comes next at nine the same day |
| CronRun.SpecIsGood | cron/spec.go:53-145 | mask schedules satisfy what the scheduler needs: zero or strictly later |
| CronRun.EveryIsGood | cron/constantdelay.go:11-27 | constant delays satisfy it too |
| CronRun.InsertSorted | cron/cron.go:57-74 | insertion by the order with zero times last gives a sorted list of the same entries |
| CronRun.InsertionIsSorted | cron/cron.go:63-74 | the order is good enough for insertion behind all entries that are not later |
| CronRun.FollowInOrder | cron/cron.go:174-227 | over every sequence of events, whatever the clock says, an entry's activation times strictly increase if and only if they did before and lie before its next one |
| CronRun.RestartInOrder | cron/cron.go:174-179 | an entry starts again in order if and only if its launches were in order and its first activation is zero or later than the last |
| CronRun.ClockSetBack | cron/cron.go:174-207 | a run that starts with a clock set back behind an earlier launch: the activation times fall back |
| CronRun.Cron.Schedule | cron/cron.go:114-122 | a new entry of a stopped scheduler is appended without activation |
| CronRun.Cron.Begin | cron/cron.go:174-179 | at the start, at any time, every entry gets its first activation, and none is due |
| CronRun.Cron.Timer | cron/cron.go:183-192 | the timer waits for the earliest activation, and for none exactly when all are zero |
| CronRun.Cron.Fire | cron/cron.go:199-207 | the loop over the sorted list fires exactly a front of due entries and leaves the rest as they are |
| CronRun.Cron.Tick | cron/cron.go:196-207 | exactly the entries with a non-zero activation not after now are launched, once each, at their activation times; afterwards none is due |
| CronRun.Cron.Add | cron/cron.go:209-213 | an entry added while running gets its first activation, and nothing else changes |
| CronRun.Cron.Sort | cron/cron.go:183 | the list becomes sorted and keeps its entries |
| CronRun.Cron.EntrySnapshot | cron/cron.go:239-250 | a snapshot is fresh copies in order |
| CronRun.Cron.Handle | cron/cron.go:194-225 | one event does to each entry what it would do to the entry alone |
| CronRun.Cron.Stop | cron/cron.go:230-236 | a running scheduler is stopped, and the entries stay as they are |
| CronRun.Cron.Run | cron/cron.go:174-227 | for any clock and any events up to the first stop, every entry is launched as if it were alone; new entries activate in order, older ones if and only if their first activation is later than their last one |
| RouteTree.Lcp | whttp/router.go:319-325 | the length is that of the longest common prefix |
| RouteTree.InsertRadix | whttp/router.go:302-392 | an insertion keeps the radix invariants: labels are first characters, sibling labels differ |
| RouteTree.InsertLookup | whttp/router.go:302-392 | an insertion changes the handler of the inserted method and path only |
| RouteTree.SplitHeld | whttp/router.go:338-367 | splitting a node keeps the handlers, names and pristine path at every path but the inserted one |
| RouteTree.InsertHeld | whttp/router.go:302-392 | an insertion with a handler puts it with its names and pristine path at the inserted path; apart from bare nodes on the way it changes nothing held elsewhere |
| RouteTree.InsertedIsNode | whttp/router.go:302-392 | an inserted path ends at a node of its own |
| RouteTree.BoundaryFits | whttp/router.go:278-296 | what Add inserts behind an inserted prefix starts at a node boundary |
| RouteTree.InsertKinds | whttp/router.go:302-392 | `:` and `*` stay in nodes of their own with the matching kind, and a handler has a name for each wildcard of its path |
| RouteTree.TreeInsert | whttp/router.go:327-337 | the branch that rewrites a node is taken exactly on the empty tree |
| RouteTree.KnownMethods | whttp/router.go:462-533 | handlers are kept for CONNECT, DELETE, GET, HEAD, OPTIONS, PATCH, POST, PUT and TRACE, and for no other method |
| Router.CommonPrefix | whttp/router.go:319-325 | the loop computes the longest common prefix |
| Router.RouteNode.AddHandler | whttp/router.go:462-483 | a handler is stored under a known method, nil removes it |
| Router.RouteNode.FindHandler | whttp/router.go:510-533 | the handler stored for the method |
| Router.RouteNode.FindChild | whttp/router.go:412-419 | the first child of the label and kind |
| Router.RouteNode.FindChildWithLabel | whttp/router.go:421-428 | the child of the label |
| Router.RouteNode.FindChildByKind | whttp/router.go:430-437 | the first child of the kind |
| Router.RouteNode.RewriteInPlace | whttp/router.go:327-337 | the first insertion takes over the root in place |
| Router.RouteNode.MoveDown | whttp/router.go:338-352 | the lower half of a split node takes over all that the node held |
| Router.RouteNode.SplitInPlace | whttp/router.go:338-367 | the split in place has the value of the split |
| Router.RouteNode.InsertInPlace | whttp/router.go:302-392 | the insertion in place has the value of the insertion, on a heap without sharing |
| Router.RouteNode.InsertIntoChild | whttp/router.go:368-380 | going deeper changes one child and nothing beside it |
| Router.Router.Insert | whttp/router.go:302-392 | at a node boundary one insertion updates at most one key of the map and keeps every invariant; the depth keeps its first non-zero count |
| Router.Router.InsertBefore | whttp/router.go:278-292 | the insertion before a wildcard changes no handler |
| Router.Router.AddParam | whttp/router.go:275-290 | a parameter name is erased and its node inserted; a route that ends there leaves its handler, its pristine path and the names so far, this one last |
| Router.Router.AddStar | whttp/router.go:291-296 | a star ends the route and is named `_*`, and what follows it is dropped; handler, pristine path and names are those of the route |
| Router.EraseParam | whttp/router.go:279-284 | erasing takes a name up to the next slash |
| Router.PathsBeginWithSlash | whttp/router.go:262-270 | a path without a slash in front is added with one |
| Router.Router.Add | whttp/router.go:262-300 | the tree becomes that of the insertions for the path; a route sets the handler of its method and erased path and no other; with a handler it leaves its pristine path and names at that node, for all methods, and no other node changes; the depth becomes 1 with the first wildcard |
| Router.Router.BuildRoutes | whttp/router.go:262-300 | after any list of routes the tree is that of the list, which is the map of the last handler added for each method and erased path, and each node has the pristine path and names of the last route with a handler there, whatever its method |
| Router.LastWasAdded | whttp/router.go:262-300 | a handler in that map was added for this method and a path with this erased form |
| Router.NamesOfFound | whttp/mux.go:212-215 | the names at the node of a found route are its own if and only if the last route with a handler for the same erased path, of any method, has the same names |
| RouteInputs.NamesOfOther | whttp/mux.go:212-215 | GET /a/:x and then POST /a/:y: what GET finds is named y |
| Router.SegmentLength | whttp/router.go:626-628 | a captured segment ends at the next slash, the first one, and has none inside |
| RouteSearch.ConsumeOk | whttp/router.go:561-597 | behind a node's own text the search stands in the tree where the matched text says |
| RouteSearch.EnterStaticOk | whttp/router.go:599-609 | a static child goes on with a smaller measure |
| RouteSearch.EnterParamOk | whttp/router.go:612-633 | a parameter child captures within the given values and goes on with a smaller measure |
| RouteSearch.NoParamOk | whttp/router.go:612-637 | without a parameter child the wildcard is next, with a smaller measure |
| RouteSearch.EnterAnyOk | whttp/router.go:636-652 | a wildcard child matches all that is left, and its value fits |
| RouteSearch.ReturnOk | whttp/router.go:584-592 | going back to the saved node on a mismatch makes the measure smaller |
| RouteSearch.ReturnOnceOk | whttp/router.go:637-647 | going back from the wildcard label forgets the saved node and makes the measure smaller |
| RouteSearch.EmptyAnyOk | whttp/router.go:659-671 | at the end of the path a wildcard child matches the empty text |
| RouteSearch.EndFacts | whttp/router.go:655-677 | where the search ends the erased pattern matches the whole path, and without backtracking the captured values fill it to the path |
| RouteRun.NextOk | whttp/router.go:558-652 | every move of the search keeps what is known of it and comes closer to an end, and it panics only for a star's value that has no place |
| RouteRun.AnswerMatches | whttp/router.go:546-678 | for any number of values, what the search answers was registered for an erased pattern that matches the whole path, and without going back the values fill it to the path |
| RouteRun.FollowedIsFound | whttp/router.go:559-652 | a request that follows a registered pattern with nothing competing on the way is answered by it, with the values that fill it to the path, if and only if there are as many values as wildcards |
| RouteRun.EmptyStarIsFound | whttp/router.go:655-671 | the same for a star that has nothing left to capture, behind a node without a handler of its own |
| RouteRun.StaticIsFound | whttp/router.go:599-609 | a static route always wins and leaves the values alone |
| RouteBack.ParamIsFound | whttp/router.go:584-616 | a request that leads to a slash whose static child fails on the rest, and follows a pattern through the parameter there, gets that route, if and only if there are values enough |
| RouteBack.StarIsFound | whttp/router.go:635-652 | a request that leads to a slash whose static and parameter children fail on the rest gets the route of the star there, with the rest as its last value, if and only if there are values enough |
| RouteRun.NextRoom | whttp/router.go:612-652 | no move exceeds the values that a tree can use, though values are taken on ways that the search leaves again |
| RouteRun.EnoughValues | whttp/router.go:614 | with as many values as a tree can use and as its longest list of names no request is short of one |
| RouteShort.ManyWildcards | whttp/router.go:614-652 | a path with more wildcards than values has a request that runs out of them |
| RouteShort.ClashIsShort | whttp/router.go:584-616 | a tree with a clash has a request that takes its one value below a slash, comes back, and finds no room at the slash's own parameter |
| RouteShort.ClashesIs | whttp/router.go:601-623 | where paths have at most one wildcard, a search can use two values if and only if a slash with a parameter child has a second one below, through static nodes that no slash begins |
| RouteDepth.DepthIsEnough | whttp/mux.go:77-81 | the depth, by which values are sized, is enough for every request if and only if no route has more than one name and nothing in the tree clashes |
| RouteDepth.DepthSuffices | whttp/mux.go:77-81 | one half of it without any condition on letters |
| RouteDepth.ApartIsEnough | whttp/mux.go:77-81 | it is, whatever the tree, if routes have one name at most and no parameter stands behind a path that goes on to another |
| RouteInputs.OneValueServes | whttp/mux.go:77-81 | GET /a/:x and GET /b/:y: the depth 1 is enough |
| RouteInputs.RequestPanics | whttp/router.go:584-616 | GET /:x and GET /a/:y with one value: the request /a/b/c ends at a node that is not there |
| RouteInputs.RequestNeverEnds | whttp/router.go:584-616 | GET /:x and GET /a/:y/b with one value: the request /a/1/c is never answered |
| RouteInputs.AddedOneParam | whttp/router.go:262-300 | what adding a path with one parameter inserts |
| RouteInputs.KeyOfStar | whttp/router.go:291-296 | what stands behind a star is dropped, and its name is `_*` |
| RouteInputs.StarBehindParam | whttp/router.go:635-652 | GET /users/:id and GET /users/*: the request /users/1/x with one value gets the star, with 1/x |
| Router.Search.Remember | whttp/router.go:601-606 | the node is saved only at a slash |
| Router.Search.Capture | whttp/router.go:625-631 | one value is captured and counted |
| Router.Search.JumpBack | whttp/router.go:585-591 | the search resumes at the label of the saved kind |
| Router.Search.AtTop | whttp/router.go:560-609 | makes the search's next move from the top of the loop |
| Router.Search.EnterStaticChild | whttp/router.go:599-609 | behind a node's text the path ends or a static child goes first |
| Router.Search.AtBranch | whttp/router.go:611-633 | makes the next move from the Param label, or stops where there is no room for the value |
| Router.Search.AtWild | whttp/router.go:635-652 | makes the next move from the Any label: the star, the saved node's next kind, or not found |
| Router.Search.Finish | whttp/router.go:655-677 | the answer: the node's handler, or that of its wildcard child if its value has a place |
| Router.Search.Seek | whttp/router.go:557-655 | the loop over the labels ends as the search does as a function: at the end of the path, with nothing left to try, or short of a value |
| Router.Router.Find | whttp/router.go:546-678 | for any number of values it ends with the answer of the search as a function; what it returns was registered for the method and an erased pattern that matches the whole path; a straight run's values fill the pattern to the path; a request that follows a pattern with nothing competing gets that route exactly if there are values enough, and so does one that falls back at a slash to the parameter or to the star; a static route always wins and leaves the values alone; it is short of values only if the tree can use more |
| NestedTransactions.LevelsAreClosed | rest/db.go:434-495 | inside a level neither the levels around it nor the durable data change |
| NestedTransactions.RollbackUndoes | rest/db.go:469-477 | a rollback undoes everything since its begin, whatever happened inside |
| NestedTransactions.CommitKeeps | rest/db.go:446-458 | an inner commit keeps its changes; only the outermost makes them durable |
| NestedTransactions.LevelsDoNotMatter | rest/db.go:434-495 | what the operations inside a level do does not depend on the levels around it |
| NestedTransactions.InnerCommitIsTransparent | rest/db.go:446-452 | an inner transaction that commits has the effect of its operations alone |
| NestedTransactions.SurvivingChanges | rest/db.go:434-495 | for every sequence of operations the durable data are the first data with the changes committed through all their levels done in order, and each open level sees these and the changes of the levels around it |
| NestedTransactions.FirstJournal | rest/db.go:434-495 | a database without a transaction starts with no changes |
| NestedTransactions.AllAtOnce | rest/db.go:455-467 | committing or rolling back everything is committing or rolling back level by level |
| Transactions.MarkIndex | gorp/gorp.go:1379-1394 | a savepoint name means the latest savepoint of that name |
| Transactions.Database.Commit | gorp/gorp.go:1345-1353 | a commit makes the current data durable and closes the transaction; a second one is an error |
| Transactions.Database.Rollback | gorp/gorp.go:1356-1364 | a rollback drops the current data and closes the transaction; a second one is an error |
| Transactions.Database.Savepoint | gorp/gorp.go:1369-1374 | a savepoint marks the current data |
| Transactions.Database.RollbackTo | gorp/gorp.go:1379-1384 | rolling back to a savepoint keeps its mark and drops the later ones |
| Transactions.Database.Release | gorp/gorp.go:1389-1394 | releasing a savepoint drops its mark and the later ones and keeps the data |
| Transactions.Transaction.Savepoint | rest/db.go:483-486 | a fresh savepoint opens a level of the stack |
| Transactions.Transaction.Exec | rest/db.go:441-443 | a write changes the current data of an open transaction |
| Transactions.Transaction.Commit | rest/db.go:446-452 | closes the innermost level, or commits all |
| Transactions.Transaction.CommitAll | rest/db.go:455-458 | commits the levels and the transaction |
| Transactions.Transaction.Rollback | rest/db.go:469-477 | restores the innermost snapshot although the database keeps the savepoint |
| Transactions.Transaction.RollbackAll | rest/db.go:464-467 | restores the durable data |
| Transactions.Transaction.ReleaseSavepoint | rest/db.go:488-495 | closes the innermost level, an error if there is none |
| Transactions.Rest.Transaction | rest/model.go:970-996 | begins a transaction, or a level inside the open one |
| Transactions.Rest.Run | rest/model.go:970-996 | for every sequence of operations with fresh names the database goes through the states of the stack of snapshots |
| Cache.EntryIdx | cache/bucket.go:152-164 | in a sorted group the first entry with a hash not below, or the last entry |
| Cache.Lookup | cache/bucket.go:132-149 | in a sorted group it matches exactly when the key is there, and otherwise gives the first larger hash or the last entry |
| Cache.SetKeepsGroup | cache/bucket.go:62-70 | writing where the lookup says keeps the group sorted and its keys distinct |
| Cache.SearchEndsLast | cache/bucket.go:132-164 | in every group that can arise the search ends at the last entry |
| Cache.Bucket.Find | cache/bucket.go:62-64 | the place of a key is the last entry of its group, and it matches exactly when that entry holds the key |
| Cache.Bucket.Set | cache/bucket.go:41-74 | the key's line becomes the new entry; no other entry changes; a large key is refused |
| Cache.Bucket.Get | cache/bucket.go:77-101 | hits exactly the line's own key before its deadline, and counts what it finds expired |
| Cache.Bucket.Del | cache/bucket.go:109-124 | empties the line if it holds the key, and always reports false |
| Cache.Cache.Set | cache/cache.go:35-43 | routes to the key's bucket and changes one line |
| Cache.Cache.Get | cache/cache.go:46-59 | answers from the key's line and counts a hit or a miss |
| Cache.Cache.Del | cache/cache.go:68-75 | empties the key's line if it holds the key |
| Cache.Cache.Clear | cache/cache.go:141-150 | all lines become empty and the counters zero |
| Cache.Cache.Replay | cache/cache.go:35-150 | over every history of requests the cache goes through the states of 4096 lines and gives their answers |
| CacheModel.ExpiryIsExact | cache/bucket.go:45-49 | an entry expires exactly after its seconds if and only if the deadline fits 32 bits or wraps to zero |
| CacheModel.NeverExpires | cache/bucket.go:45-49 | an entry lives for ever if and only if it was given no seconds or the deadline wraps to zero |
| CacheModel.HashParts | cache/bucket.go:62-73 | bucket, group and kept hash are bits 0 to 7, 12 to 15 and 16 to 31 of the hash |
| CacheModel.SameLineIs | cache/bucket.go:62-64 | two keys share a line exactly when their hashes agree in bits 0 to 7 and 12 to 15 |
| CacheModel.LineHolds | cache/bucket.go:41-124 | after every history a line holds a key exactly when the last set into it was of the key and nothing displaced it since |
| CacheModel.LinesHoldTheirOwn | cache/bucket.go:41-74 | a line only ever holds keys that hash to it and are not too large |
| CacheModel.HitsExactly | cache/cache.go:35-75 | a get hits with a value exactly when the last set into the key's line was of that key and value, it was not deleted or cleared since, and it was given no seconds or its time and seconds lie behind now, in 32 bits; what is no hit is a miss of its own kind |
| CacheModel.GetsAreCounted | cache/cache.go:46-59 | every get since the last clear is counted once, a hit as a hit and a miss as a miss |
| WorkerPool.StepKeepsPool | work.go:249-281 | every step keeps each pooled worker in the pool once and no other worker in it |
| WorkerPool.StepKeepsJobs | work.go:351-367 | every step keeps each accepted job waiting, or with one worker, or answered, and only one of these |
| WorkerPool.ReachableOk | work.go:249-367 | every interleaving keeps this |
| WorkerPool.NeverBlocks | work.go:254-274 | the pool never holds more than its size; a worker can always register and always respond |
| WorkerPool.StepCosts | work.go:249-367 | accepting a job adds five steps to be made, every other step is one of those |
| WorkerPool.RunLength | work.go:249-367 | the length of every run is accounted for: six steps a job and one a worker, less what is pending |
| WorkerPool.QuietWorkers | work.go:249-367 | when the pool is stuck every worker is pooled and no job waits, unless there are no workers |
| WorkerPool.RunsServe | work.go:290-367 | in every run each job runs and responds at most once, and when the pool is stuck all accepted jobs have been served exactly once, if and only if there is a worker or no job |
| Jobs.ChainStops | work.go:223-234 | a chain runs its stages in order, each on the result of the one before, up to the first that fails or panics, and ends as that stage |
| Jobs.StagesInWords | work.go:223-234 | which stage a chain stops at, by the results of its stages: all before it return without error, and it is the last or does not |
| Jobs.MiddlewaresWrap | work.go:236-247 | middlewares wrap from the last to the first |
| Jobs.AnswersInWords | work.go:66-73 | the error wins over the result |
| Jobs.JobHandler | work.go:236-247 | the two loops build the chain from the left and the middlewares from the last, the first outermost |
| Jobs.Job.Respond | work.go:66-73 | the response is the error if there is one, else the result |
| Jobs.Job.Do | work.go:196-220 | whether the handler returns, fails or panics, exactly one response is sent, with its error if any |
| Jobs.Job.Serve | work.go:257-274 | the route's chain serves the job if the method has one, and the response is that of the stage where it stops |
| BindPlan.BindUpdate | gorp/gorp.go:412-504 | the loops build the SET items, the WHERE items and the argument list of the plan |
| BindPlan.CreateBindInstance | gorp/gorp.go:290-333 | the arguments and keys are read in order, and a record at version 0 moves to 1 on the way |
| BindPlan.NumbersAgree | gorp/gorp.go:421-497 | numbered placeholders are numbered by position if and only if no column set is stamped on update |
| BindPlan.StampedIsMisnumbered | gorp/gorp.go:421-497 | a generated key next to a stamped column: the one argument is numbered 1 |
| BindPlan.ArgsOfUpdate | gorp/gorp.go:290-317 | the arguments are the values of the SET columns, the keys, and the checked version, in this order |
| BindPlan.CondsMean | gorp/gorp.go:476-496 | the WHERE items select exactly the rows with the record's keys and checked version |
| BindPlan.UpdateExecutes | gorp/gorp.go:412-504 | the statement with its arguments, executed on any row by position, is the intended update; it has something to set if and only if some column is included |
| BindPlan.UpdateMeans | gorp/gorp.go:412-504 | exactly the non-empty, non-transient, non-auto-increment columns of the target get the record's values, the stamp or the next version; every other column stays |
| BindPlan.UpdateInWords | gorp/gorp.go:290-504 | the same by the flags of the columns and the values of the record alone: which rows are changed, which columns of them, to which values |
| OptimisticLock.Table.Update | gorp/gorp.go:2004-2054 | a record that sets nothing is refused, exactly then; with a version above 0 any other update changes its row and moves the record on, or changes nothing and reports a conflict, or an error if the row is gone |
| OptimisticLock.Table.Has | gorp/gorp.go:2132-2146 | after a failed update a conflict is reported only if a row with the keys is there |
| OptimisticLock.TargetsAreCounted | gorp/gorp.go:2025-2033 | the number of rows reported is that of the rows the update is meant for |
| OptimisticLock.UpdateMovesOn | gorp/gorp.go:412-504 | a successful update keeps the keys and moves the row to the next version |
| OptimisticLock.WriteIsCompareAndSwap | gorp/gorp.go:2038-2046 | a write succeeds exactly when the whole row is still as its client last saw it |
| OptimisticLock.StepKeepsGood | gorp/gorp.go:2004-2054 | every load, edit and write of any client keeps rows, keys, versions and sessions consistent |
| OptimisticLock.RunGoesOn | gorp/gorp.go:2004-2054 | a run is its loads, edits and writes one after the other |
| OptimisticLock.NoVersionWinsTwice | gorp/gorp.go:2004-2054 | however clients interleave, a row's version is its first version plus its successful updates, and no two of them start from the same version |
| OptimisticLock.ZeroVersionIsStuck | gorp/gorp.go:304-306 | a record just read can be updated if and only if its version is not 0 |
| OptimisticLock.Play | gorp/gorp.go:2004-2054 | clients that load, edit and write through Update take the table through that run, and all writes that do not succeed report a conflict |
| OptimisticLock.SuccessesAreCounted | gorp/gorp.go:2004-2054 | as many outcomes count as succeeded as are updates |
| InsertDelete.BindInsert | gorp/gorp.go:345-410 | the loop builds the columns, the arguments and the generated column of an insert |
| InsertDelete.AutoColumnIsLast | gorp/gorp.go:364-407 | the generated value read back is that of the last auto-increment column, unless that is transient and the dialect has a word for it |
| InsertDelete.InsertNumbers | gorp/gorp.go:355-401 | an insert's placeholders are numbered by position in every dialect |
| InsertDelete.InsertMeans | gorp/gorp.go:345-410 | the row sent has exactly the listed columns, with the record's values, the stamp, the next version, or nothing where the database generates the value |
| InsertDelete.InsertInWords | gorp/gorp.go:290-410 | the same by the flags of the columns and the values of the record alone |
| InsertDelete.InsertedVersion | gorp/gorp.go:301-307 | after an insert the record's version is the stored one if and only if it was 0 |
| InsertDelete.BindDelete | gorp/gorp.go:506-551 | the loops build the WHERE items and arguments of a delete |
| InsertDelete.DeleteMeans | gorp/gorp.go:506-551 | a delete removes exactly the rows with the record's keys and own version, 0 included, and its numbers are positions |
| InsertDelete.DeleteInWords | gorp/gorp.go:290-551 | the same by the values of the record alone |
| SqlText.ReplaceRendered | gorp/builder_private.go:201-207 | replacing `$$` by `?` turns exactly the holes into `?` if and only if no `$` of a literal stands right before another `$` or a hole |
| SqlText.PlaceholderOf | gorp/builder_private.go:201-207 | the i-th placeholder stands where the i-th hole is |
| SqlText.CountFinal | gorp/builder_private.go:201-207 | the `?` of any final text are its holes, those of its literals, and one for each stray pair of `$` |
| SqlText.JoinNext | gorp/builder_private.go:121-163 | joined parts stand one after the other with the separator in between |
| SqlCondition.NumericTextBinds | gorp/builder_private.go:20-23 | a numeric text is bound as its number if and only if it has no spaces and fits 64 bits, or is zero |
| SqlCondition.NumericTexts | gorp/builder_private.go:20-23 | a text is numeric exactly when it is digits between ASCII spaces, of which there may be none |
| SqlCondition.ExpandIsTemplate | gorp/builder_private.go:42-59 | replacing the first `?` for each argument in turn is filling the text from left to right |
| SqlCondition.TextTemplateHoles | gorp/builder_private.go:42-59 | as many arguments are placed as the text has `?`, and a `?` without argument stays |
| SqlCondition.TextAligns | gorp/builder_private.go:42-59 | for any text, placeholders and variables are equally many if and only if there is one `?` for each argument and no stray pair of `$`, or the arguments left over have as many values as there are stray pairs |
| SqlCondition.MarksWithoutVariables | gorp/builder_private.go:201-207 | `a = ?` and `a = $$` without arguments: a placeholder and no variable |
| SqlCondition.FittingConditions | gorp/builder_private.go:17-61 | which conditions fit: numbers, keys and numeric texts always, columns and texts by their marks and dollar signs |
| SqlCondition.TextStays | gorp/builder_private.go:201-207 | any condition text keeps its own characters and has `?` in its places if and only if no `$` of it stands right before another `$` or a filled `?` |
| SqlCondition.ConditionIsTemplate | gorp/builder_private.go:17-61 | a text, number, key list or column map becomes its template: text and variables |
| SqlCondition.ConditionsSpell | gorp/builder_private.go:17-61 | the text of a number, a key list and a column map, with the quoting of the source, and their variables |
| SqlBuilder.Search.Where | gorp/search.go:46-49 | the condition's variables come behind those of the earlier AND conditions, and the clauses can be aligned exactly when they could before and the condition fits |
| SqlBuilder.Search.Or | gorp/search.go:56-59 | the same among the conditions joined by OR |
| SqlBuilder.Search.Having | gorp/search.go:91-94 | the new condition on groups decides: if the clauses could be aligned they still can when it fits, and cannot when it does not |
| SqlBuilder.Search.Order | gorp/search.go:61-68 | an order joins the others or replaces all, and keeps the clauses alignable exactly when it has no mark of its own |
| SqlBuilder.Search.Copy | gorp/search.go:27-44 | a copy stands for the same calls |
| SqlCalls.ConditionsInOrder | gorp/search.go:46-59 | AND and OR conditions keep the order of their calls |
| SqlCalls.ConditionsOfOne | gorp/search.go:46-59 | a Where call adds its condition to the first, an Or call to the second, and no other call to either |
| SqlCalls.SettingIsLast | gorp/search.go:70-118 | the last call of its kind decides table, selection, joins, group, limit and offset; without one each is empty |
| SqlCalls.HavingIsLast | gorp/search.go:91-94 | the last call decides the condition on groups |
| SqlCalls.OrdersSince | gorp/search.go:61-68 | orders keep the order of their calls, since the last that reorders |
| SqlCalls.OrdersOfOne | gorp/search.go:61-68 | an order adds its text, and no other call does |
| SqlBuilder.FittingCallsAreTidy | gorp/search.go:46-118 | calls that fit, in any order and number, gather clauses that can be aligned |
| SqlBuilder.Builder.AddToVars | gorp/builder.go:40-43 | a variable is appended and marked by `$$` |
| SqlBuilder.Builder.BindArgs | gorp/builder_private.go:42-60 | the loop replaces one `?` an argument and appends its values |
| SqlBuilder.Builder.BuildWhereCondition | gorp/builder_private.go:17-61 | the text and the variables of a condition of each kind |
| SqlBuilder.Builder.WhereSql | gorp/builder_private.go:121-147 | conditions by AND, then those by OR, variables in the same order |
| SqlBuilder.Builder.HavingSql | gorp/builder_private.go:189-195 | the condition on groups, with its variables |
| SqlBuilder.Builder.CombinedConditionSql | gorp/builder.go:130-133 | joins, conditions, grouping, condition on groups, orders, limit and offset, in this order and each only if there is one, with the variables in the order of the text |
| SqlBuilder.Builder.PrepareQuerySql | gorp/builder_private.go:201-208 | the query's text and variables |
| SqlBuilder.EitherMeans | gorp/builder_private.go:136-146 | joining AND and OR conditions keeps text and variables together, also when one side is empty |
| SqlBuilder.QuerySpells | gorp/builder_private.go:149-208 | the whole text of a query: selection or `*`, quoted table, joins, conditions, and `GROUP BY`, `HAVING`, `ORDER BY`, `LIMIT` and `OFFSET` each with its own part if there is one; marks are replaced in the conditions alone if no other part has a `$` |
| SqlBuilder.QueryAligns | gorp/builder_private.go:201-208 | if every condition fits, the i-th hole of the final text belongs to the i-th variable, and the text has `?` in the holes and nothing else replaced if and only if no `$` stands right before another `$` or a hole |
| SqlBuilder.Builder.Find | gorp/builder.go:104-109 | a query is built on a copy, so the builder is left as it is; the text has each clause of the builder in its place, and its placeholders line up with its variables |
| SqlBuilder.Ask | gorp/builder.go:45-109 | a new builder, any list of calls, and Find: which call each clause of the text comes from, from the selection to `LIMIT` and `OFFSET`; the variables are those of the Where calls, the Or calls and the last Having, in this order, and if every call fits and no `$` is in the way, the placeholders line up with them |
| SqlBuilder.Builder.CountRows | gorp/builder.go:98-102 | the count query has the same variables |
| ShortUuid.ShortenUUID | utils/uuid.go:21-41 | for any text the loop writes the number read from it in base 57, lowest digit first, padded to 22 letters; a number that is not positive becomes padding alone |
| ShortUuid.LengthenUUID | utils/uuid.go:43-62 | the loop reads the number back and lays it out in the groups of section 3 of RFC 4122, or panics |
| ShortUuid.AlphabetIs | utils/uuid.go:16-19 | the alphabet is the digits and letters but for 0, 1, I, O and l |
| ShortUuid.IndexIs | utils/uuid.go:49 | a letter counts as its first place in the alphabet, any other character as -1 |
| ShortUuid.HexOfNumber | utils/uuid.go:53 | a number is written as its hexadecimal digits without leading zeros, behind a minus if it is negative |
| ShortUuid.HexDigits | utils/uuid.go:27 | the sixteen digits of a hexadecimal text and their values |
| ShortUuid.SignedTexts | utils/uuid.go:25-27 | a plus sign in front changes nothing, and two cannot be read |
| ShortUuid.HyphensDropped | utils/uuid.go:25 | hyphens are dropped wherever they stand |
| ShortUuid.LayoutIs | utils/uuid.go:58-60 | a layout has 36 characters with hyphens at 8, 13, 18 and 23 and the digits in order |
| ShortUuid.ShortNumber | utils/uuid.go:29-38 | the number of a short form is the number it was made from, padding included |
| ShortUuid.ShortIsInjective | utils/uuid.go:16-41 | different numbers have different short forms, and every 128-bit number has one of exactly 22 letters |
| ShortUuid.LongOfHex | utils/uuid.go:53-60 | a number of at least 24 hexadecimal digits is laid out as its 32 digits, leading zeros included, and no other is |
| ShortUuid.RoundTrip | utils/uuid.go:21-62 | lengthening the short form of a UUID gives it back in lower case if and only if its number is at least 16^23; below that it panics |

## Left out

- Zones with daylight saving, and loading of locations: zones have a fixed offset.
- Router concurrency, the writes to `Func` and `Opts` of shared nodes in `Find` (the handler is a second result instead), option maps, parent pointers, and nil methods.
- Router.Router.Find: stops where a value has no place and says so; the source then panics, or goes round its loop and may end in a panic, never, or with some answer (`RouteInputs` has one of each of the first two). It does not say which values are captured after backtracking, where the counter is not rewound, and of requests with which several routes compete only those are found for certain that fall back at a node beginning with a slash from children that hold no further such node and no parameter that takes the rest; any other run that backtracks is only sound, since a node is saved only at a slash.
- RouteDepth.DepthIsEnough: asks for a letter that no route uses, to build the failing requests with; the half that says when the depth is enough (`RouteDepth.DepthSuffices`) does not.
- Router.RouteNode.InsertInPlace: going deeper is a call where the source continues a loop; the labels of `Find` are methods of a search object.
- Sorting: any sort that keeps the entries will do, here insertion; equal times may come in another order.
- CronRun.Cron.Run: jobs are launches in a log, not goroutines; panics in jobs are recovered and logged outside the model.
- Reading of durations after `@every `: a parameter of `CronParser.Parse`.
- Letter case and spaces beyond ASCII in cron specs.
- Transactions.Rest.Run: does not model SQL errors, other connections, or a transaction that is handed in; savepoint names are fresh by assumption, as they are generated UUIDs.
- Cache locks and atomics, the body of the hash function (a parameter), statistics other than hits, misses and expired entries, and `TTL`, which is empty.
- WorkerPool.RunsServe: leaves out `End`, after which a stopped worker's channel can stay in the pool, two jobs that share one context, timeouts, and handlers that never return; jobs are told apart by number.
- Jobs.Job.Do: access logging, and a panic inside `Response` itself.
- BindPlan.UpdateExecutes: statements are lists of assignments and conditions rather than text; type converters, quoting, 64-bit overflow of the version, and columns that occur twice are left out.
- OptimisticLock.Table.Update: hooks before and after an update, several records in one call, and SQL errors.
- Reading the generated key back after an insert.
- SqlBuilder.QueryAligns: leaves out Not conditions, raw mode, conditions of other types, and reflection on argument types; the walk over a column map is in the order of a given list.
- ShortUuid.ShortenUUID: what the big integer holds after a text that it cannot read is undefined, and therefore a parameter.
- HTTP and RPC engines, proxy, client, daemon, logging, configuration, storage locks, reports: input and output, or thin wrappers.
