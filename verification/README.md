# Diagnostic agent: verified models of its event runtime, data structures, codecs and commands

The agent is a Spring application with a web page for diagnostics. Most of its logic lies in three
places: the Closure runtime bundled in `maestro-web.js`, four administration commands on security
modes, and the services and scripts behind the diagnostic page. This project models that logic and
proves properties of it. `dafny verify dfyconfig.toml` verifies the whole project.

Every component has a specification made of datatypes and functions, the methods that compute it
with loops and updates in place where the source has them, and lemmas about the specification.

| component | files |
|---|---|
| event registry and dispatcher | `EventModel`, `EventInvariants`, `EventFilled`, `EventUndo`, `EventDispatch`, `EventSafety`, `EventWalk`, `EventShortcut`, `EventNested`, `EventHeard`, `EventQuiet`, `EventOnce`, `EventTurns`, `EventRegistry` |
| hash map with a lazily cleaned key array, and its iterators | `StructsMap` |
| longest common subsequence by a table | `Subsequence` |
| ISO weeks; ISO durations | `IsoWeek`; `IsoInterval` |
| JSON: data and printers as functions, a reader after RFC 8259, round trips, text and layout, printers as loops | `Json`, `JsonReader`, `JsonRoundTrip`, `JsonText`, `JsonLayout`, `JsonPrinters` |
| query parameters of URLs | `UriParams`, `UriPieces`, `UriEdits`, `UriFragment`, `UriSetParam`, `UriSetParamExact`, `UriKeyLaw`, `UriValues`, `UriMethods` |
| security modes of regions and tenants | `SecurityModes`, `SecurityModeCommands` |
| walking a tree in document order | `TreeWalk` |
| product of lists by an odometer | `CartesianProduct` |
| binary search, insertion and removal | `BinarySearch` |
| difference of rectangles | `Rects` |
| memory samples, oldest overwritten | `Sampler`, `MemoryService` |
| report on instance runs | `RunReport`, `RunReportBuilder` |
| remembered tabs | `TabStore` |
| shared: an option type; 32-bit integers and the remainder of the source's languages | `Wrappers`; `Numbers` |

## The event registry

A registry holds every listener three times: by key, in an array for its type, phase and source,
and in a list for its source. Counters on types and phases tell how many children they have, and
`remaining_` tells a running dispatch how many arrays are still ahead. An array is locked while its
listeners fire; a removal then only marks the record, and the array is compacted when the last lock
goes. The state is a value with one flat map for each level of the tree. What callbacks do is a
`Plan`: for each call a list of actions (listen, unlisten, remove, dispatch another event), and
whether the call throws, stops the event, prevents its default or returns false. Plans are finite
trees, so they cover every run that ends. The failing calls of `listen` are part of every run: with
a source that is null it throws once the nodes are made, with an invalid listener once the array is
made too. `EventSafety` proves that the agreement of the three indexes holds before and after every single action, at any depth of nested dispatches.
The code keeps references to the nodes of the tree during a walk where the model looks them up by
path; the two agree because a locked array keeps its nodes (`EventSafety.LockedArrayStays`) and no callback
runs between two arrays.
`EventShortcut` proves that cutting the walk short by `remaining_` loses nothing as long as no
callback dispatches the same type again along a chain of two sources or more. `EventNested` shows
a reachable registry in which such a dispatch does lose a listener, and that the limit is exact.
`EventQuiet` says exactly which calls a dispatch makes when its callbacks stop the event, throw or
return false, and `EventTurns` who is called when they change registrations on the way.

## Query parameters

Ampersands cut the text of a URL before its fragment into pieces, and a key opens behind an
ampersand or a question mark and ends at an equals sign, a NUL or the end of its piece.
`UriPieces` says what reading and removing do to the pieces of any URL, `UriEdits` what is left,
`UriSetParamExact` for which URLs `setParam` then keeps its law for all keys, and `UriKeyLaw` for
which it does for one.

## Where the code does less than it seems to

- The table of `longestCommonSubsequence` is filled up to the length of the first sequence. The
  result is always a common subsequence; `Subsequence.LongestExactly` says for which lengths it is
  always a longest one.
- A nested dispatch of the same type along two sources or more defeats `remaining_`:
  `EventNested.NestedDispatchMissesParent`; `EventNested.NestedLimitExactly` gives the exact limit.
- `listen` makes the nodes and the array before it looks at its arguments. A call that throws can
  leave an empty array or a node without children, until a listener comes and goes there:
  `EventFilled.EmptyPlacesReached`, `EventUndo.UnlistenUndoes`. `EventFilled.ListenFillsExactly` says exactly when, and
  `EventFilled.ValidRunFills` that nothing else does. The agreement of the indexes holds all the same.
- `listenOnce` for a callback that is already registered turns the standing registration into a
  call-once one (`EventOnce.ListenOnceExactly`), and a call-once callback cannot register itself
  again: `EventOnce.RelistenIsLost`.
- Types are kept in an object that inherits names. For a type such as `toString` the test whether
  the type node is there succeeds on the empty tree, and its count becomes NaN. Event types are
  names that `Object.prototype` does not have.
- `unlisten` looks at the first record with the callback and handler, and in a locked array this
  may be a removed one that hides a live one: `EventUndo.UnlistenLawExactly`.
- `clear` of the map resets its version, so an iterator does not notice it:
  `StructsMap.ClearDeceivesIterator`. A map is safe from this exactly while its version is zero:
  `StructsMap.PromiseExactly`.
- The map keeps its entries in an object too, where an assignment to `__proto__` makes no entry:
  such a `set` is counted and listed, and the entry is lost. `StructsMap.ProtoIsLost` is the case,
  `StructsMap.ApplyRefines` and `StructsMap.RunRefines` give the exact limits.
- The pretty printer asks each object for its members by the object's own `hasOwnProperty`, and so
  throws on an object with a member of that name: `Json.ShadowedIsNotPrinted`,
  `JsonRoundTrip.PrettyRoundTrip`. The compact printer does not.
- `setParam` changes other parameters when a piece holds two keys, as in `?a=1?b=2`, when it cuts a
  question mark off a value or a word (setting `k` in `?a=1&b?k=2` makes `b` a key), and when it
  glues the new parameter to a piece with a key, as in `p&a=1`. `UriSetParamExact.UrlLawExactly`
  says exactly for which URLs this cannot happen, `UriKeyLaw.KeyLawExactly` for which URL and key,
  `UriValues.LawHoldsExactly` for which values. A NUL character ends a key
  as an equals sign does, because its code is falsy.
- `removeParam` and `setParam` take a delimiter off a fragment such as `#a?` when the query does not
  end with one: `UriFragment.FragmentLosesMark`; `UriFragment.RemovedText` gives the exact limit.
- `isLongIsoYear` takes every year below -2 for a long one, because the remainder of a negative
  number is negative: `IsoWeek.LongYearExactly`, `IsoWeek.NegativeYearIsWrong`.
- The memo of the run report joins three names without a separator:
  `RunReport.ReportsAgreeExactly` gives the exact condition, `RunReport.JoinedKeysCollide` a case.
- A cut-off weekday of 0 (Monday) passed to `getWeekNumber` is taken for Thursday:
  `IsoWeek.CutOffDayInWeek`.
- `Date` reads the years 0 to 99 as 1900 to 1999. The week number of a week with its cut-off day in
  such a year is negative, and in all other years, negative ones included, it is right:
  `IsoWeek.WeekNumberCounts`. `IsoWeek.WeekDateRoundTrip` and `IsoWeek.DayRoundTrip` have the same
  limit.

## Model

| member | source | states |
|---|---|---|
| EventUndo.ListenExactly | src/main/resources/static/js/maestro-web.js:222-225 | `listen` returns the first match if it is live and then only counts the call; otherwise it enters one new record last in its array and its source's list, changing no other record, array or list; without a type it throws before doing anything, without a source when the nodes are made, and on an invalid listener when the nodes and the array are made |
| EventUndo.ListenCounts | src/main/resources/static/js/maestro-web.js:224 | `remaining_` of the phase rises by one with every call that gets to the array, also one that then throws, and no other counter does |
| EventUndo.UnlistenUndoes | src/main/resources/static/js/maestro-web.js:224-230 | listening for the first time on an unlocked array and then unlistening gives the listeners, source lists and old records back, and all arrays but an empty one at this place; nodes and counts come back if and only if no empty array and no childless node stood there before |
| EventInvariants.ListenKeeps | src/main/resources/static/js/maestro-web.js:222-225 | `listen`, when it throws too, keeps the whole agreement of the three indexes: records, type and phase counters, arrays and per-source lists; locks stay balanced and no record is lost |
| EventInvariants.ListenOnceKeeps | src/main/resources/static/js/maestro-web.js:226 | `listenOnce` keeps the agreement of the indexes, whether it finds a record, makes one or throws |
| EventOnce.ListenOnceExactly | src/main/resources/static/js/maestro-web.js:226 | `listenOnce` does what `listen` does and marks the record returned call-once, a new one or the standing one with this callback and handler, and no other; that record is always there |
| EventOnce.OnceFiresOnce | src/main/resources/static/js/maestro-web.js:226-237 | after `listenOnce` a dispatch along its source, with callbacks that only return, fires the record exactly once and takes it away; whatever operations follow, no such dispatch fires it again |
| EventOnce.RelistenIsLost | src/main/resources/static/js/maestro-web.js:224-235 | a call-once callback that listens again for itself ends without any registration, because `listen` finds the record that is about to go |
| EventFilled.ListenFillsExactly | src/main/resources/static/js/maestro-web.js:222-225 | from a registry without empty arrays and childless nodes, `listen` leaves none if and only if it throws before it has made anything, finds the places it would make, or has a source and a valid listener |
| EventFilled.EmptyPlacesReached | src/main/resources/static/js/maestro-web.js:222-225 | a first call with an invalid listener leaves an empty unlocked array behind, and one without a source a phase node without arrays |
| EventFilled.ValidRunFills | src/main/resources/static/js/maestro-web.js:224-237 | in every run from the empty registry whose calls of `listen` all have a source and a valid listener, at any depth of nested dispatches, no array is empty and no node without children |
| EventInvariants.UnlistenByKeyKeeps | src/main/resources/static/js/maestro-web.js:228-229 | removal by key keeps the agreement, takes exactly that key out of the listeners, and reports whether there was a listener to remove |
| EventUndo.UnlistenByKeyExactly | src/main/resources/static/js/maestro-web.js:228-230 | it marks this record alone, takes one occurrence of its key out of its source's list and, unless the array is locked, out of its array, the rest in order; a list or array that would be empty goes, a locked array is only noted for clean-up, and nothing else changes |
| EventInvariants.UnlistenExactly | src/main/resources/static/js/maestro-web.js:227 | `unlisten` looks at the first record of the array with the callback and handler, removed or not: it succeeds exactly when that record is live, and then takes this one listener away; otherwise nothing changes |
| EventUndo.UnlistenLawExactly | src/main/resources/static/js/maestro-web.js:227-229 | `unlisten` succeeds exactly when the array holds a live record with the callback and handler, and then one of these goes, on all registries in agreement with a given number of locks on the array if and only if that number is zero |
| EventUndo.MaskedReached | src/main/resources/static/js/maestro-web.js:224-236 | the failing registry with one lock is reached from the empty one: `listen`, a dispatch that locks the array, and a callback that unlistens itself and listens again |
| EventInvariants.CleanUpKeeps | src/main/resources/static/js/maestro-web.js:230 | when one array of an otherwise agreeing registry still has to be compacted, compacting it or dropping it when it comes out empty, with its nodes counted down, gives the agreement back, and no locked array goes |
| EventInvariants.RemoveAllExactly | src/main/resources/static/js/maestro-web.js:231 | `removeAll` on a source removes exactly the listeners of that source with the given type and phase, and returns how many they were |
| EventSafety.ActionsKeep | src/main/resources/static/js/maestro-web.js:222-237 | any list of actions a callback performs, nested dispatches and calls that throw included, keeps the agreement of the indexes |
| EventSafety.ListenersKeep | src/main/resources/static/js/maestro-web.js:235 | firing an array under its lock keeps the agreement; the lock count is back to its old value even when a callback throws |
| EventSafety.DispatchKeeps | src/main/resources/static/js/maestro-web.js:236-237 | a whole dispatch, with callbacks that listen, unlisten, dispatch, throw or stop, keeps the agreement of the indexes |
| EventSafety.EveryRun | src/main/resources/static/js/maestro-web.js:222-237 | in every state reached from the empty registry by any sequence of operations, failing ones included, the agreement holds |
| EventSafety.IndexesAgree | src/main/resources/static/js/maestro-web.js:224-235 | what the agreement means: a key is in `listeners_` exactly when its record occurs once in its source's list and once, not removed, in its tree array; counters equal numbers of children; an unlocked array holds no removed record |
| EventSafety.LockedArrayStays | src/main/resources/static/js/maestro-web.js:235 | whatever the callbacks of an array do, a locked array keeps its place in the tree and its locks, and only grows at its end, so the positions a running loop walks stay valid |
| EventSafety.LockedRun | src/main/resources/static/js/maestro-web.js:235 | locking an array, any changes that keep the agreement, and unlocking it give the agreement back, with the locks as they were |
| EventSafety.OnceIsRetired | src/main/resources/static/js/maestro-web.js:235 | a call-once record whose call has ended without an exception is removed in every later state, whatever its callback did, and so never fires again |
| EventTurns.NoneIsPassedOver | src/main/resources/static/js/maestro-web.js:235-237 | whatever the callbacks do, short of dispatching the same type along two sources or more: unless one throws or stops the event, every listener on the chain that was there before the dispatch and is there afterwards has been called |
| EventTurns.LatecomersBubble | src/main/resources/static/js/maestro-web.js:236-237 | so has a bubble listener that came during the capture phase |
| EventTurns.TurnsExactly | src/main/resources/static/js/maestro-web.js:235 | when the callbacks of an array listen, unlisten and remove, the calls are of listeners that were live at the start, in order and not twice; all that stay are called unless an exception comes before, one that comes meanwhile is not, nor one that goes before its turn |
| EventWalk.ListenGains | src/main/resources/static/js/maestro-web.js:224-225 | listening lets `remaining_` grow by at least the number of sources that gain an array |
| EventWalk.ListenersSuffice | src/main/resources/static/js/maestro-web.js:235 | firing an array of another type or phase, whatever the callbacks do short of dispatching this type along two sources or more, leaves `remaining_` large enough for the arrays still ahead |
| EventWalk.SamePhaseSuffices | src/main/resources/static/js/maestro-web.js:236-237 | so does a nested walk over the same type and phase along a single source, although it sets `remaining_` anew |
| EventWalk.DispatchSuffices | src/main/resources/static/js/maestro-web.js:236-237 | so does a whole nested dispatch of another type, or of the same type along a single source |
| EventShortcut.WalkShortcut | src/main/resources/static/js/maestro-web.js:236-237 | the walk over the sources cut short by `remaining_` ends in the same state, with the same keys fired in the same order, as the walk over all sources, under the condition below |
| EventShortcut.DispatchShortcut | src/main/resources/static/js/maestro-web.js:236-237 | for every registry in agreement, every chain of sources and every behaviour of the callbacks in which no nested dispatch of the same type goes along two sources or more, the dispatch with the `remaining_` shortcut equals the dispatch without it |
| EventShortcut.QuietDispatch | src/main/resources/static/js/maestro-web.js:236-237 | when callbacks only return and no record is call-once, a dispatch fires exactly the live records, capture phase from the outermost source inwards and bubble phase outwards, each array in order, and changes nothing else but `remaining_` |
| EventQuiet.QuietDispatchExactly | src/main/resources/static/js/maestro-web.js:235-237 | with call-once records as well: the same records fire in the same order, the call-once ones among them stop being listeners and are marked as removed, and arrays off the chain stay as they are |
| EventQuiet.PassiveDispatchExactly | src/main/resources/static/js/maestro-web.js:235-237 | for callbacks that change no registration but may stop the event, prevent its default, return false or throw: the calls made are those that can be heard, up to one that throws and up to the end of the array in which one stops the event; unless it throws, the dispatch returns false exactly when a call returned false or prevented the default; exactly the call-once records whose calls returned are gone |
| EventHeard.UpToIsUnique | src/main/resources/static/js/maestro-web.js:235-237 | this leaves no choice: the callbacks determine how many calls are made and whether the dispatch throws |
| EventQuiet.StopEndsWithArray | src/main/resources/static/js/maestro-web.js:236-237 | when the n-th call stops the event, the rest of its array is still called and nothing after it, in either phase |
| EventQuiet.ThrowEndsAtOnce | src/main/resources/static/js/maestro-web.js:235 | when the n-th call throws, nothing is called after it, the indexes agree, and its record stays even if it is call-once |
| EventNested.TwoReached | src/main/resources/static/js/maestro-web.js:224-225 | the registry of the example below is reached by two calls of `listen` |
| EventNested.NestedDispatchMissesParent | src/main/resources/static/js/maestro-web.js:235-237 | a callback that dispatches the same type again along a chain of two sources or more uses up `remaining_`, and the outer dispatch misses the listener of the parent |
| EventNested.NestedLimitExactly | src/main/resources/static/js/maestro-web.js:235-237 | the exact limit: with one such nested dispatch the shortcut is right on all registries in agreement and all chains if and only if it has another type or goes along at most one source |
| EventRegistry.EventRegistry.Listen | src/main/resources/static/js/maestro-web.js:222-225 | the class method computes the specified state: new state and key of the loop over the array, which returns a matching live record or appends a new one, and what is left when the call throws |
| EventRegistry.EventRegistry.ListenOnce | src/main/resources/static/js/maestro-web.js:226 | the class method computes the specified state: as above, and marks the record call-once unless the call throws |
| EventRegistry.EventRegistry.CleanUp | src/main/resources/static/js/maestro-web.js:230 | the class method computes the specified state: in-place compaction of an unlocked array and removal of empty nodes |
| EventRegistry.EventRegistry.UnlistenByKey | src/main/resources/static/js/maestro-web.js:228-229 | the class method computes the specified state: removal from the per-source list, the marks on record and array, and clean-up |
| EventRegistry.EventRegistry.Unlisten | src/main/resources/static/js/maestro-web.js:227 | the class method computes the specified state: the search for a live match and its removal |
| EventRegistry.EventRegistry.RemoveAll | src/main/resources/static/js/maestro-web.js:231 | the class method computes the specified state: the backwards loop over a source's list, with the count |
| EventRegistry.EventRegistry.CallNext | src/main/resources/static/js/maestro-web.js:235 | the class method computes the specified state: one callback: its actions, its effect on the event and the removal of a call-once record |
| EventRegistry.EventRegistry.FireAll | src/main/resources/static/js/maestro-web.js:235 | the class method computes the specified state: the loop over the records present when firing began |
| EventRegistry.EventRegistry.FireListeners | src/main/resources/static/js/maestro-web.js:235 | the class method computes the specified state: lock, loop, unlock and clean-up in the `finally` part |
| EventRegistry.EventRegistry.Walk | src/main/resources/static/js/maestro-web.js:236-237 | the class method computes the specified state: the loop over the sources in either direction, with `remaining_`, stop and throw |
| EventRegistry.EventRegistry.DispatchEvent | src/main/resources/static/js/maestro-web.js:236-237 | the class method computes the specified state: both phases with fresh `remaining_` counters |
| StructsMap.ApplyRefines | src/main/resources/static/js/maestro-web.js:269-275 | each operation acts on the entries as on a mathematical map and keeps `count_` the number of entries, every key listed and `keys_` within twice `count_`, if and only if it does not set the key `__proto__` |
| StructsMap.RunRefines | src/main/resources/static/js/maestro-web.js:269-275 | after a sequence of operations from such a map, entries and `count_` are those of the mathematical map if and only if every `set` of `__proto__` came before the last `clear`; then `keys_`, which may hold stale and repeated keys, lists every key once after a clean-up |
| StructsMap.ProtoIsLost | src/main/resources/static/js/maestro-web.js:273-274 | after two calls `set` of `__proto__` on an empty map `count_` is 2 and `keys_` has two elements, and there is no entry, even after a clean-up |
| StructsMap.CleanUpCleans | src/main/resources/static/js/maestro-web.js:273 | after `cleanupKeysArray_` the key array lists every key of the map exactly once; the two length tests that skip a pass are right |
| StructsMap.CleanUpOrders | src/main/resources/static/js/maestro-web.js:273 | and it keeps the keys in the order of their first places |
| StructsMap.RightLength | src/main/resources/static/js/maestro-web.js:273 | a key array that covers the keys and has their number is free of repetitions, which justifies skipping the second pass |
| StructsMap.VersionGuards | src/main/resources/static/js/maestro-web.js:276 | without `clear`, an unchanged version means an unchanged key set |
| StructsMap.VersionExactly | src/main/resources/static/js/maestro-web.js:272-274 | each operation but `clear` raises the version by one if it changes the key set, and leaves it otherwise; a `set` of `__proto__` always raises it |
| StructsMap.IteratorComplete | src/main/resources/static/js/maestro-web.js:276 | in every run in which the version shows each `clear` at the next call, an iterator yields no key twice, and when it stops it has yielded every key |
| StructsMap.IteratorWithoutClear | src/main/resources/static/js/maestro-web.js:276 | in particular in every run without `clear` |
| StructsMap.PromiseExactly | src/main/resources/static/js/maestro-web.js:269-276 | for every map reached by operations from the empty one, an iterator keeps this promise whatever is done meanwhile, `clear` included, if and only if the version is zero; then the map is empty |
| StructsMap.ClearDeceivesIterator | src/main/resources/static/js/maestro-web.js:272-276 | a run with a `clear` in which the iterator goes on over another map without throwing |
| StructsMap.Map.DropStale | src/main/resources/static/js/maestro-web.js:273 | the class method computes the specified state and result: first pass of the clean-up, moving kept keys forward in place |
| StructsMap.Map.DropRepeats | src/main/resources/static/js/maestro-web.js:273 | the class method computes the specified state and result: second pass, keeping first occurrences in place |
| StructsMap.Map.CleanupKeysArray | src/main/resources/static/js/maestro-web.js:273 | the class method computes the specified state and result: both passes under their length tests |
| StructsMap.Map.Set | src/main/resources/static/js/maestro-web.js:274 | the class method computes the specified state and result: entry, count, key array and version; under the key `__proto__` all but the entry |
| StructsMap.Map.Remove | src/main/resources/static/js/maestro-web.js:272 | the class method computes the specified state and result: entry, count and version, and clean-up once `keys_` is longer than twice `count_`; the result tells whether the key was there |
| StructsMap.Map.Clear | src/main/resources/static/js/maestro-web.js:272 | the class method computes the specified state and result: everything back to the start |
| StructsMap.Map.GetKeys | src/main/resources/static/js/maestro-web.js:270 | the class method computes the specified state and result: clean-up and a copy of the keys, each key of the map once when every key set has its entry |
| StructsMap.Map.GetValues | src/main/resources/static/js/maestro-web.js:270 | the class method computes the specified state and result: the values in the order of the keys, none for a key without entry |
| StructsMap.Map.ContainsValue | src/main/resources/static/js/maestro-web.js:271 | the class method computes the specified state and result: true exactly when some key has a value equal to the argument |
| StructsMap.KeyIterator.Next | src/main/resources/static/js/maestro-web.js:276 | yields the next key, stops at the end, throws when the version differs |
| Subsequence.TraceIsCommon | src/main/resources/static/js/maestro-web.js:99 | for any lengths and any comparator the traced pairs are a common subsequence |
| Subsequence.BestBounds | src/main/resources/static/js/maestro-web.js:99 | no common subsequence is longer than the recurrence says |
| Subsequence.TableIsBest | src/main/resources/static/js/maestro-web.js:99 | the filled part of the table holds the recurrence's values |
| Subsequence.PairsAreLongest | src/main/resources/static/js/maestro-web.js:99 | the result is longest among all common subsequences when b is no longer than a, or a has at most one element |
| Subsequence.LongestExactly | src/main/resources/static/js/maestro-web.js:99 | for given lengths the result is longest for all contents if and only if b is no longer than a or a has at most one element (the filling loop runs to the length of a) |
| Subsequence.TraceEndsLatest | src/main/resources/static/js/maestro-web.js:99 | of all longest common subsequences of any two beginnings the one read off ends latest in a, which settles ties |
| Subsequence.FillTable | src/main/resources/static/js/maestro-web.js:99 | the three filling loops, with the bounds as they are, give the table its specified cells, unfilled ones included |
| Subsequence.LongestCommonSubsequence | src/main/resources/static/js/maestro-web.js:99 | the whole function returns what the collector gives for the positions of the traced pairs in a and in b, in order |
| IsoWeek.NextYear | src/main/resources/static/js/maestro-web.js:678 | the leap year rule gives each year its length |
| IsoWeek.LongYearExactly | src/main/resources/static/js/maestro-web.js:678 | `isLongIsoYear` answers true for the years with 53 weeks by the definition of section 2.2.10 of ISO 8601:2004 and for every year below -2, so it is right exactly for years from -2 on and for long ones |
| IsoWeek.NegativeYearIsWrong | src/main/resources/static/js/maestro-web.js:678 | it answers true for the year -3, which has 52 weeks |
| IsoWeek.DateRoundTrip | src/main/resources/static/js/maestro-web.js:680-683 | year, month and day of month denote the day they were taken from if and only if the year is not one of 0 to 99, which `Date` reads as 1900 to 1999 |
| IsoWeek.RollsOver | src/main/resources/static/js/maestro-web.js:680 | months and days outside their range count on into the next and previous ones, and the weekdays are those of the calendar |
| IsoWeek.WeekNumberCounts | src/main/resources/static/js/maestro-web.js:680-681 | for any first weekday and cut-off day, and any month and day numbers that `Date` rolls over, `getWeekNumber` is the number of cut-off weekdays the week's year has had by the end of the week if and only if that year is below 0 or above 99; otherwise it is negative |
| IsoWeek.CutOffDayInWeek | src/main/resources/static/js/maestro-web.js:680-681 | the cut-off day is the day of the same week with the given weekday; a cut-off of 0 means Thursday in the code |
| IsoWeek.LastThursday | src/main/resources/static/js/maestro-web.js:678 | a year has as many Thursdays as `isLongIsoYear` gives it weeks if and only if it is -2 or later or a long one |
| IsoWeek.WeekDateRoundTrip | src/main/resources/static/js/maestro-web.js:678-683 | a valid week date, week 53 included exactly in long years, is the week year, week number and weekday of the day it denotes if and only if neither its year nor the calendar year of that day is one of 0 to 99 |
| IsoWeek.DayRoundTrip | src/main/resources/static/js/maestro-web.js:678-683 | the week year, week number and weekday of a day are a valid week date that denotes the day under the same condition, so there days and valid week dates correspond one to one |
| IsoInterval.ToIsoString | src/main/resources/static/js/maestro-web.js:687-688 | the pushes and the join build the specified text, null exactly when some field is negative and some is positive |
| IsoInterval.WritesExactly | src/main/resources/static/js/maestro-web.js:687-688 | what is written: a sign exactly before negative intervals; the fields that are not zero, in verbose mode all, as numbers without leading zeros; a T before the time if and only if it has a field; and `PT0S` for the zero interval |
| IsoInterval.RoundTrip | src/main/resources/static/js/maestro-web.js:686-688 | for every interval without mixed signs, in both modes, zero and negative ones included, `fromIsoString` returns what `toIsoString` wrote (section 4.4.3 of ISO 8601:2004), when the text of the seconds reads back as a number |
| IsoInterval.WholeRoundTrip | src/main/resources/static/js/maestro-web.js:686-688 | for whole seconds written in decimal digits the round trip needs no further assumption |
| IsoInterval.ReadsExactly | src/main/resources/static/js/maestro-web.js:678-686 | `fromIsoString` reads exactly the texts made of an optional sign, a P and fields in order, with a T if and only if the time has a field and with at least one field, each to its signed numbers, and no other text |
| IsoInterval.FractionExactly | src/main/resources/static/js/maestro-web.js:686 | a fraction of seconds is the number its digits make without the point, divided by ten for each place behind it |
| IsoInterval.FieldReads | src/main/resources/static/js/maestro-web.js:678 | an optional group of the pattern takes exactly its own field and leaves the rest |
| JsonReader.ParseTokens | src/main/resources/static/js/maestro-web.js:321-326 | the reader of RFC 8259 gives a tree back from its tokens |
| JsonRoundTrip.ReadEscaped | src/main/resources/static/js/maestro-web.js:323-325 | every string is read back from its escaped form |
| JsonRoundTrip.EscapesExactly | src/main/resources/static/js/maestro-web.js:324-325 | printable ASCII but the quote and the backslash stands for itself, these two behind a backslash, five control characters have a letter, and everything else is written as four lower-case hexadecimal digits of its code |
| JsonRoundTrip.MarksExactly | src/main/resources/static/js/maestro-web.js:323-326 | the words `null`, `true` and `false` and the marks are those of the grammar |
| JsonRoundTrip.CompactRoundTrip | src/main/resources/static/js/maestro-web.js:321-326 | the compact text of every tree parses back to the tree, numbers that are not finite as null |
| Json.PrintedExactly | src/main/resources/static/js/maestro-web.js:358-364 | with the member test that stops the printer, the printer writes for each tree what it would write without the test, or throws, exactly when some object at any depth has a member named `hasOwnProperty` |
| Json.ShadowedIsNotPrinted | src/main/resources/static/js/maestro-web.js:359-360 | the failing tree: an object whose one member is named `hasOwnProperty`, whatever its value; the compact printer writes it |
| JsonRoundTrip.PrettyRoundTrip | src/main/resources/static/js/maestro-web.js:358-364 | the pretty printer writes a text if and only if no object of the tree has a member named `hasOwnProperty`, and every text it writes parses back to the same tree |
| JsonText.PrettyStripsToCompact | src/main/resources/static/js/maestro-web.js:358-364 | removing the white space outside strings from the pretty text, where there is one, gives the compact text |
| JsonLayout.PrettyIsLines | src/main/resources/static/js/maestro-web.js:359-364 | the pretty text, where there is one, is exactly a list of lines: a line for each bracket of a filled array or object and for each scalar, contents two columns further in, commas at the ends |
| JsonLayout.LinesAreSingle | src/main/resources/static/js/maestro-web.js:359-364 | no line holds a line break of its own |
| JsonText.QuotedIsAscii | src/main/resources/static/js/maestro-web.js:323-325 | every string is written in printable ASCII |
| JsonText.CompactIsAscii | src/main/resources/static/js/maestro-web.js:321-326 | so is every compact text |
| JsonPrinters.SerializeString | src/main/resources/static/js/maestro-web.js:324-325 | the loop over the characters writes the quoted string |
| JsonPrinters.Serialize | src/main/resources/static/js/maestro-web.js:322-323 | the recursive printer writes the compact text into its buffer |
| JsonPrinters.SerializeArray | src/main/resources/static/js/maestro-web.js:325 | the loop over the items, with the separator variable |
| JsonPrinters.SerializeObject | src/main/resources/static/js/maestro-web.js:326 | the loop over the members, with the separator variable |
| JsonPrinters.PrintObject | src/main/resources/static/js/maestro-web.js:359-362 | the pretty printer writes the pretty text into its buffer, whatever the indentation, or throws exactly on the trees above |
| UriParams.FindsFirst | src/main/resources/static/js/maestro-web.js:202 | the skip-ahead of `findParam_` jumps over no delimited match: the result is the first one |
| UriSetParam.KeyEndsExactly | src/main/resources/static/js/maestro-web.js:202-204 | behind a question mark a key ends at an equals sign or a NUL and at no other character of its piece, and its value begins behind that |
| UriPieces.GetReads | src/main/resources/static/js/maestro-web.js:204 | on every URL `getParamValues` returns, for each piece between ampersands that opens the key, the text from its first opening to the end of the piece, in order |
| UriPieces.RemoveKeeps | src/main/resources/static/js/maestro-web.js:205 | on every URL `removeParam` cuts each such piece at its first opening together with the ampersand behind it, and then the first delimiter that stands at the end or before a hash, if there is one |
| UriEdits.LeftIsKept | src/main/resources/static/js/maestro-web.js:205 | what is kept, as pieces: the beginning of a cut piece goes on with the next piece |
| UriEdits.SetPieces | src/main/resources/static/js/maestro-web.js:198-205 | the pieces of every URL after `setParam` |
| UriFragment.RemovedText | src/main/resources/static/js/maestro-web.js:204-205 | on every URL the text before the first hash is what is left of the pieces without one delimiter at its end, and the text from the hash on stays as it was if and only if a delimiter ended the pieces left or the fragment has none at its end or before a hash; otherwise the first of these goes |
| UriFragment.AppendedText | src/main/resources/static/js/maestro-web.js:198-201 | `appendParam` writes the parameter before the fragment, behind a question mark, an ampersand or nothing, and leaves all the rest |
| UriFragment.SetText | src/main/resources/static/js/maestro-web.js:198-205 | the same for `setParam`, with the same exact condition on the fragment |
| UriFragment.FragmentLosesMark | src/main/resources/static/js/maestro-web.js:204-205 | removing any parameter from `/p#a?` gives `/p#a` |
| UriSetParamExact.AppendExactly | src/main/resources/static/js/maestro-web.js:198-201 | `appendParam` adds its value behind those of its key and changes no other, for all values, if and only if there is a question mark before the last character of the query or the last piece opens no key |
| UriKeyLaw.RemoveExactly | src/main/resources/static/js/maestro-web.js:205 | for every URL and key: `removeParam` takes all values of its key away and leaves those of every other key if and only if no other key stands before it in a piece, the pieces without it have all values of the other keys, and the question marks cut off the end took no key with them |
| UriSetParamExact.UrlLawExactly | src/main/resources/static/js/maestro-web.js:198-205 | for every URL: after `setParam` the key has exactly the one value given and every other key the values it had, for all keys and values, if and only if no piece of the URL has two keys and the ends left by removing a key are clean |
| UriSetParamExact.LawForExactly | src/main/resources/static/js/maestro-web.js:198-205 | the same for one key to be set, on URLs whose pieces have one key each |
| UriKeyLaw.KeyLawExactly | src/main/resources/static/js/maestro-web.js:198-205 | for every URL and one key to be set, pieces with several keys included: the law holds for all values if and only if no other key stands before this one in its piece, the end left by removing it adds at most an empty value, and the pieces without the key, with what the end adds, have all values of the other keys |
| UriSetParamExact.TwoKeysBreak | src/main/resources/static/js/maestro-web.js:198-205 | on a URL with a piece that holds two keys the law fails for some key |
| UriSetParamExact.EarlierKeyBreaks | src/main/resources/static/js/maestro-web.js:198-205 | it fails for every key that stands behind another one in its piece |
| UriSetParamExact.SetParamLaw | src/main/resources/static/js/maestro-web.js:198-205 | the law through a codec, wherever the condition holds for the key |
| UriValues.ClosedIsOrderly | src/main/resources/static/js/maestro-web.js:198-205 | the condition holds for every URL made of a path, parameters in which no question mark comes last or before a key, and a fragment |
| UriValues.LawHoldsExactly | src/main/resources/static/js/maestro-web.js:198-205 | the law holds around a value in all such URLs if and only if no question mark in the value comes last or before a key |
| UriMethods.FindParamLoop | src/main/resources/static/js/maestro-web.js:202 | the search loop |
| UriMethods.GetParamValuesLoop | src/main/resources/static/js/maestro-web.js:204 | the reading loop |
| UriMethods.RemoveParamLoop | src/main/resources/static/js/maestro-web.js:205 | the removing loop and the dropping of trailing punctuation |
| UriMethods.SetParamLoop | src/main/resources/static/js/maestro-web.js:205 | removing, then appending |
| SecurityModes.OverrideExactly | src/main/java/io/maestro3/agent/admin/factory/impl/openstack/OpenstackConfigureSecurityModeCommand.java:72-112 | override reports a change exactly when the region's modes change; other modes keep all but their default flag, and a new default displaces the old one |
| SecurityModes.CreateExactly | src/main/java/io/maestro3/agent/admin/factory/impl/openstack/OpenstackConfigureSecurityModeCommand.java:114-133 | a mode is created exactly under a new name, with an existing group, and as a default only where there is none; only that mode is added |
| SecurityModes.OverrideCommandExactly | src/main/java/io/maestro3/agent/admin/factory/impl/openstack/OpenstackConfigureSecurityModeCommand.java:50-80 | an override is accepted exactly with a region, a name and no group, of a mode that the region has; then that mode has the default flag asked for and the new description unless it is blank, other modes keep all but a displaced default flag, and nothing else changes; the answer is "Nothing to update" exactly when nothing changes |
| SecurityModes.ConfigureKeeps | src/main/java/io/maestro3/agent/admin/factory/impl/openstack/OpenstackConfigureSecurityModeCommand.java:50-134 | creating or overriding a mode keeps the referential integrity below |
| SecurityModes.DeleteExactly | src/main/java/io/maestro3/agent/admin/factory/impl/openstack/OpenstackDeleteSecurityModeCommand.java:46-67 | deletion succeeds exactly when the mode exists and no tenant of the region has it, and takes away that mode alone |
| SecurityModes.DeleteUndoesCreate | src/main/java/io/maestro3/agent/admin/factory/impl/openstack/OpenstackDeleteSecurityModeCommand.java:46-67 | deleting a mode just created gives the whole state back |
| SecurityModes.MoveThenDelete | src/main/java/io/maestro3/agent/admin/factory/impl/openstack/OpenstackSetSecurityModeCommand.java:55-98 | once `set` has moved the tenants of one mode to another, the mode they left can be deleted |
| SecurityModes.FailsExactly | src/main/java/io/maestro3/agent/admin/factory/impl/openstack/OpenstackConfigureSecurityModeCommand.java:50-134 | each of the four commands answers with an error exactly when something is wrong with the request, names something that is, and of several complaints the first in its order; a new tenant has its region looked up before its fields are checked, the other commands check the fields first |
| SecurityModes.NewTenantExactly | src/main/java/io/maestro3/agent/admin/factory/impl/openstack/OpenstackCreateTenantCommand.java:90-125 | a tenant is added exactly when the region is known, the tenant new and the mode asked for configured; it has that mode, or else the default of its region, or none, and nothing else changes |
| SecurityModes.SetModesExactly | src/main/java/io/maestro3/agent/admin/factory/impl/openstack/OpenstackSetSecurityModeCommand.java:55-98 | the command succeeds exactly when region and new mode are given, tenant and current mode not both, the region has the new mode and some tenant is meant; then exactly the tenants meant get the new mode, chosen by tenant, by current mode or the whole region, and the report lists them with the modes they had; otherwise nothing changes |
| SecurityModes.StepKeeps | src/main/java/io/maestro3/agent/admin/factory/impl/openstack/OpenstackConfigureSecurityModeCommand.java:50-134 | every command keeps the integrity: at most one default mode in a region, modes keyed by their names, tenants' modes configured in their own regions |
| SecurityModes.RunKeeps | src/main/java/io/maestro3/agent/admin/factory/impl/openstack/OpenstackConfigureSecurityModeCommand.java:50-134 | so does every sequence of commands |
| SecurityModeCommands.RegionConfig.UpdateDescription | src/main/java/io/maestro3/agent/admin/factory/impl/openstack/OpenstackConfigureSecurityModeCommand.java:82-96 | in-place update of the description, with the flag |
| SecurityModeCommands.RegionConfig.UpdateDefaultMode | src/main/java/io/maestro3/agent/admin/factory/impl/openstack/OpenstackConfigureSecurityModeCommand.java:97-112 | in-place update of the default flags, with the flag |
| SecurityModeCommands.AdminService.Configure | src/main/java/io/maestro3/agent/admin/factory/impl/openstack/OpenstackConfigureSecurityModeCommand.java:50-134 | the command on the mutable region computes the specified state and response |
| SecurityModeCommands.AdminService.Delete | src/main/java/io/maestro3/agent/admin/factory/impl/openstack/OpenstackDeleteSecurityModeCommand.java:46-67 | as above, for deletion |
| SecurityModeCommands.AdminService.CreateTenant | src/main/java/io/maestro3/agent/admin/factory/impl/openstack/OpenstackCreateTenantCommand.java:90-125 | as above, for a new tenant |
| SecurityModeCommands.AdminService.SetMode | src/main/java/io/maestro3/agent/admin/factory/impl/openstack/OpenstackSetSecurityModeCommand.java:55-98 | as above, with the loops that choose and update the tenants |
| TreeWalk.NextCounts | src/main/resources/static/js/maestro-web.js:126 | `getNextNode` goes to the node numbered one higher in document order, and returns null exactly at the last |
| TreeWalk.PreviousCounts | src/main/resources/static/js/maestro-web.js:126 | `getPreviousNode` goes to the node numbered one lower, and returns null exactly at the root |
| TreeWalk.NextAndPreviousAreInverse | src/main/resources/static/js/maestro-web.js:126 | q is next after p if and only if p is previous to q |
| TreeWalk.WalkIsPreorder | src/main/resources/static/js/maestro-web.js:126 | calling `getNextNode` from the root until null visits the nodes of the recursive preorder traversal, each exactly once |
| TreeWalk.GetNextNode | src/main/resources/static/js/maestro-web.js:126 | the climbing loop |
| TreeWalk.GetPreviousNode | src/main/resources/static/js/maestro-web.js:126 | the descending loop |
| CartesianProduct.ProductIterator.Next | src/main/resources/static/js/maestro-web.js:261 | the n-th call returns the n-th tuple of the product and counts on; when all are returned it stops for good |
| CartesianProduct.ProductIterator.constructor | src/main/resources/static/js/maestro-web.js:261 | starts at the first tuple, or at the end when there are no lists or one is empty |
| CartesianProduct.TuplesByNumber | src/main/resources/static/js/maestro-web.js:261 | the recursively defined product holds each tuple at the mixed-radix number of its positions |
| CartesianProduct.ResultAt | src/main/resources/static/js/maestro-web.js:261 | the n-th result is the tuple with mixed-radix index n |
| CartesianProduct.ValueIsNumber | src/main/resources/static/js/maestro-web.js:261 | positions and numbers below the product of the lengths are in bijection, one half |
| CartesianProduct.DigitsAreNumber | src/main/resources/static/js/maestro-web.js:261 | the other half |
| CartesianProduct.ValueOrders | src/main/resources/static/js/maestro-web.js:261 | the order of the numbers is the lexicographic order of the positions |
| CartesianProduct.CarryCounts | src/main/resources/static/js/maestro-web.js:261 | advancing a position and clearing those behind it counts up by one |
| CartesianProduct.ToArray | src/main/resources/static/js/maestro-web.js:259 | collecting all tuples gives the whole product in order |
| BinarySearch.Search | src/main/resources/static/js/maestro-web.js:82 | the binary search in signed 32-bit index arithmetic agrees with searching one by one, up to 2^30 elements |
| BinarySearch.FoundMeans | src/main/resources/static/js/maestro-web.js:82 | the result is the leftmost match, or the complement of the only place where the element could be inserted |
| BinarySearch.InsertedKeeps | src/main/resources/static/js/maestro-web.js:85 | `binaryInsert` keeps the array strictly sorted and adds the element unless an equal one is there |
| BinarySearch.RemovedKeeps | src/main/resources/static/js/maestro-web.js:86 | `binaryRemove` keeps it strictly sorted and takes out exactly the equal element |
| BinarySearch.RunRefinesSet | src/main/resources/static/js/maestro-web.js:82-86 | any run from the empty array is a run on a mathematical set, under any total preorder |
| BinarySearch.SortedArray.BinaryInsert | src/main/resources/static/js/maestro-web.js:85 | the in-place operation and its result |
| BinarySearch.SortedArray.BinaryRemove | src/main/resources/static/js/maestro-web.js:86 | the in-place operation and its result |
| Rects.Difference | src/main/resources/static/js/maestro-web.js:94-95 | the rectangles lie inside a, overlap neither b nor each other, cover all of a outside b, and their areas and that of the intersection add up to the area of a; they are exactly the strips above and below b, as wide as a, and those beside b, as high as the common part, or a itself when the common area is zero |
| Rects.IntersectionExactly | src/main/resources/static/js/maestro-web.js:94 | the points of the intersection are exactly the common points |
| Rects.ApartMeans | src/main/resources/static/js/maestro-web.js:95 | the test for overlap used in the contract is the absence of a common inner point |
| Sampler.StepKeepsNewest | src/main/java/io/maestro3/diagnostic/service/DoMemoryService.java:92-115 | overwriting the first oldest slot keeps the slots' times the newest of the history |
| Sampler.OldestIsFirst | src/main/java/io/maestro3/diagnostic/service/DoMemoryService.java:99-110 | the slot overwritten is the first of the oldest ones |
| Sampler.RunKeepsNewest | src/main/java/io/maestro3/diagnostic/service/DoMemoryService.java:92-115 | after any number of ticks of a clock that never goes back, with ages below 2^31 ms, the N slots hold the N newest times ever taken, as a multiset, and only samples taken |
| Sampler.FromFirstFill | src/main/java/io/maestro3/diagnostic/service/DoMemoryService.java:60-115 | the same from the first fill, which counts as samples taken |
| Sampler.ReportExactly | src/main/java/io/maestro3/diagnostic/service/DoMemoryService.java:74-92 | the report holds exactly the slots but the last whose age lies strictly between two check times and the time asked for, each once, newest first; the two bounds are narrowed to 32 bits, and are themselves when they fit |
| MemoryService.Service.AfterPropertiesSet | src/main/java/io/maestro3/diagnostic/service/DoMemoryService.java:60-72 | fills a new array of distinct objects |
| MemoryService.Service.Collect | src/main/java/io/maestro3/diagnostic/service/DoMemoryService.java:99-115 | the scan with a 32-bit maximum and the overwriting of one object in place |
| MemoryService.Service.GetMemoryInfo | src/main/java/io/maestro3/diagnostic/service/DoMemoryService.java:74-92 | null without a list or with fewer than two slots but the last; otherwise the slots of the specified report, in its order |
| RunReport.TallyUpdates | src/main/java/io/maestro3/diagnostic/model/container/StartTimeContainer.java:34-54 | `update` counts one duration into the buckets |
| RunReport.ReportTallies | src/main/java/io/maestro3/diagnostic/manager/DiagnosticPageManager.java:251-277 | each container tallies exactly the durations filed under its key, cloud, place and alias, in buckets bounded by one, three, ten and thirty minutes, and its total is the sum of its buckets |
| RunReport.TotalsAreRecords | src/main/java/io/maestro3/diagnostic/manager/DiagnosticPageManager.java:251-277 | the totals add up to the number of records with a known tenant and region |
| RunReport.OwnAliasesExactly | src/main/java/io/maestro3/diagnostic/manager/DiagnosticPageManager.java:265-270 | every record is filed under its own alias if and only if records whose region alias, tenant alias and image join to the same text have the same alias |
| RunReport.MemoIsTransparent | src/main/java/io/maestro3/diagnostic/manager/DiagnosticPageManager.java:251-277 | then the report equals the one built without the memo |
| RunReport.ReportsAgreeExactly | src/main/java/io/maestro3/diagnostic/manager/DiagnosticPageManager.java:251-277 | the report equals the one built without the memo, for all durations, if and only if records whose region alias, tenant alias and image join to the same text have the same alias |
| RunReport.InjectiveIsTransparent | src/main/java/io/maestro3/diagnostic/manager/DiagnosticPageManager.java:265-270 | in particular when the joined text determines region, tenant and image |
| RunReport.OnePlaceIsTransparent | src/main/java/io/maestro3/diagnostic/manager/DiagnosticPageManager.java:265-270 | the memo changes nothing for records of one region and one tenant, whatever their images |
| RunReport.EqualLengthsAreTransparent | src/main/java/io/maestro3/diagnostic/manager/DiagnosticPageManager.java:265-270 | nor where aliases of regions, and those of tenants, have one length each and are not shared |
| RunReport.KeysOfReport | src/main/java/io/maestro3/diagnostic/manager/DiagnosticPageManager.java:259-272 | every container belongs to the cloud of a record's tenant, to the place named after its region and tenant, and to the alias that its image, or an earlier one that joins to the same text, has there, or else its id |
| RunReport.JoinedKeysCollide | src/main/java/io/maestro3/diagnostic/manager/DiagnosticPageManager.java:265-270 | a concrete pair of records whose joined keys collide, so that the report differs |
| RunReportBuilder.StartTimeContainer.Update | src/main/java/io/maestro3/diagnostic/model/container/StartTimeContainer.java:34-54 | the early returns increment the total and one bucket |
| RunReportBuilder.GetInstanceRunDetails | src/main/java/io/maestro3/diagnostic/manager/DiagnosticPageManager.java:242-272 | the loop with its memo builds the specified report, a container of its own for each key |
| TabStore.Tabs.AddToStorage | src/main/resources/static/js/tabReporting.js:147-180 | on every list the loop that splices and pushes while it walks ends, with the specified list |
| TabStore.StoredKeepsOthers | src/main/resources/static/js/tabReporting.js:147-180 | a call leaves the entries of other parents as they are and in order, on any list |
| TabStore.StoredExactly | src/main/resources/static/js/tabReporting.js:147-180 | from distinct parents a new href takes the last place and the old one of its parent goes; an href already stored stays in its place |
| TabStore.StoredMembers | src/main/resources/static/js/tabReporting.js:147-180 | from distinct parents, a call changes the entry of its own parent alone |
| TabStore.RunKeeps | src/main/resources/static/js/tabReporting.js:147-180 | after every sequence of calls parents are distinct, each has its last stored href, and the entries of parents never stored keep their order |

## Left out

Events
- DOM attachment, the proxy functions and the branch of `handleBrowserEvent_` for old browsers: foreign calls. Sources are given and distinct, and a record is known by its key.
- The branch of `listen` and `unlisten` for an array of types: a loop over single calls.
- Events reused by a later dispatch, and callbacks that change the type of an event or the parent of a source: a dispatch takes its chain of sources once, without repetitions.
- Callbacks that never return: plans are finite.
- Event types that name a member of `Object.prototype`: the counts of the tree are NaN there.
- Listener objects that gain or lose their `handleEvent` after registration, and sources that are primitive values: a listener is valid or not, and a source has a uid or is null.
- `unlisten` on a null source: it throws in `getUid` where the model finds no array.
- Uniqueness of live registrations while an array is locked: the code lets a callback register the same function twice.
- `removeAll` over all sources: a loop over the call for one source.
- The nested objects of `listenerTree_` are flat maps keyed by type, by type and phase, and by type, phase and source.

Structures and algorithms
- `goog.structs.Map.transpose` and `equals`: they read keys that have not been cleaned, or stop at an empty key.
- What a reader gets at a key without own entry: the value inherited from `Object.prototype`, which the model leaves out.
- A key iterator's wrapping in the value iterator: the same loop with another result.
- Arrays too long for the index sum to fit a signed 32-bit integer in `binarySearch_`: an index turns negative there, and comparing with `undefined` decides the result.
- `binarySelect`: the same loop with an evaluator for the comparator.
- Rounding of floating-point coordinates in `Rect.difference`: coordinates are real numbers.

Dates
- Daylight saving time: days have the same length.
- IsoInterval.RoundTrip: the text of seconds with a fraction is a parameter that must read back as the number, because turning a double into text is foreign; whole seconds need nothing.
- Whole numbers beyond the exact range of a double, and their text from 1e21 on: numbers are integers written in decimal digits.

JSON
- Values of type function and `undefined` inside arrays (the printer leaves a gap there), and replacer functions. A number is the text the runtime prints for it, or not finite.
- `goog.json.parse`: an `eval` behind a pattern. The reader here follows sections 2 to 7 of RFC 8259 instead.
- HTML delimiters of the pretty printer, and its parsing of a string given as input: trees start where printing does.

URLs
- Decoding that fails, and `getParamValue`: the codec is a pair of functions that decode what they encode, into text without delimiters.
- An empty key: on an empty parameter the loop of `getParamValues` would not end.

Administration commands
- Repositories, the security group service and the wizard: a repository is a map, the service's answer is a field of the command, and a command is one atomic step.
- The order of the report on tenants: it is a map here. A null field of a request is the empty string, and blanks are those of ASCII.
- Texts of messages.

Diagnostics
- Wrap-around of the counters of the run report at 2^31 records.
- The nested maps of the run report are one map keyed by cloud, place and image, and turning it into JSON and back is left out.
- A cloud without an image repository: looking an alias up there is a total function.
- Check times that are zero or negative: the timer refuses them.
- The numbers in a memory sample are one reading.
- Setters, JMX reads and the other pages of the diagnostic service: no logic of their own.
- Several references to one pushed entry in the tab store: entries never change once stored.
