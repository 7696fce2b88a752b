# GMGN sniper content script — decision core in Dafny

The content script watches the token columns of a trading page. It groups
tokens that share a normalized symbol and/or name ("match keys"), and marks
the one that launched first in each group. Each classification is also
written to a two-second lock and checked against it. That check always
accepts the classification computed from the index, so the lock never
changes a decision (`Locks.LockNeverOverrides`). When enough distinct tokens
of one group show up within a short window, it can buy the group's first
token.
Events are counted in a batched statistics record.

This project models the decision logic of `content.js` and proves what it
promises. DOM reads, timers, `Date.now()` and `chrome.storage` are replaced
by plain inputs:

- each row is an already-extracted `Token`;
- the clock is an integer `now`;
- a storage write or a purchase is a boolean outcome.

Modules, one file each:

| file | module | what it holds |
|---|---|---|
| wrappers.dfy | `Wrappers` | `Option` |
| text.dfy | `Text` | the clean-up steps of `normalize` |
| parsing.dfy | `Parsing` | `parseAgeToMs`, `parseTokenHref` |
| keys.dfy | `Keys` | `buildKeys`, and a decoder used to prove key prefixes never collide |
| settings.dfy | `Settings` | the `cfg` snapshot and `DEFAULTS` |
| tokens.dfy | `Tokens` | token records, the identity `chain:address`, the per-row rule of `collectTokens` |
| leaders.dfy | `Leaders` | `isEarlierThan` and the leader index, specified as a fold; `isTokenFirstInIndex`, `getFirstTokenInfo`, `shouldHideSlot` |
| locks.dfy | `Locks` | the state lock, `validateStateChange`, the decisions of `applyMarkersWithLock` |
| stats.dfy | `Stats` | the counter arithmetic of the batched statistics |
| autobuy.dfy | `AutoBuy` | the sliding-window history, the winner choice, the purchase guards as engine events |
| sniper.dfy | `Sniper` | class `Sniper` holding the module globals; each operation that updates them in place is a method proved to reach the state the module functions specify |

An `async` function is split at its `await` into two events:

- `executeAutoBuy` becomes `ExecuteAutoBuy`, then `FinishAutoBuy(success)`, then `ReleaseAutoBuyLock` (the 1 s timer);
- `flushStatsUpdate` becomes `BeginFlush`, then `FinishFlush(taken, ok)`, where `taken` is counts a `BeginFlush` took and that are still in flight.

`Sniper.Valid()` is the engine invariant, and every event keeps it. The
invariant says:

- a triggered key has no history;
- an awaited purchase holds the lock;
- an awaited purchase is for an identity not yet bought.

Where the code departs from its documented design, the model follows the code:

- The fourth show mode is `hideNonSameNameFirst`.
- The leader index has no tie-break beyond age and slot index. On an exact tie, the token seen first keeps the lead.
- In the "either" match mode, a token is "first" only if it leads every one of its indexed keys.
- The two-second lock of `applyMarkersWithLock` is written and validated, but the validation accepts every computed classification. The branch that would keep the locked value is never taken, so what is shown is always the classification computed from `buildIndex`.

`scanAllColumns` calls `scanBody` once per column, and every call works on the
same module globals. `ScanBody` models one such call. Its "previous scan" is
therefore the previously scanned column, not the previous pass over the page:

- `knownAddresses`, and with it the "new" flag of a token, comes from the previously scanned column;
- `renderDupKeys`, and with it the hide flags, also comes from the previously scanned column.

## Model

| member | source | states |
|---|---|---|
| Text.Lower | content.js:89 | lower-casing keeps the length and maps every character by `LowerChar` |
| Text.TrimStart | content.js:90 | the result is a suffix of the input, everything removed is white space, and it does not start with white space |
| Text.TrimEnd | content.js:90 | the result is a prefix of the input, everything removed is white space, and it does not end with white space |
| Text.Trim | content.js:90 | the result is no longer than the input and neither starts nor ends with white space |
| Text.TrimPadded | content.js:90 | `trim` removes exactly the white space around a text that neither starts nor ends with white space |
| Text.CollapseSpaces | content.js:91 | the result is empty exactly when the input is, starts with white space exactly when the input does, its only white space is the plain space, and no two white-space characters are adjacent |
| Text.CollapseRun | content.js:91 | a non-empty run of white space becomes one plain space |
| Text.CollapseWord | content.js:91 | text without white space is kept as it is |
| Text.CollapseAppend | content.js:91 | collapsing distributes over a concatenation whose cut is not inside a run of white space |
| Text.StripDisallowed | content.js:92 | the result contains only `a-z`, `0-9`, U+4E00..U+9FA5 and space, and is no longer than the input |
| Text.StripAppend | content.js:92 | stripping distributes over concatenation |
| Text.StripChar | content.js:92 | one character is kept exactly when it is `a-z`, `0-9`, U+4E00..U+9FA5 or space |
| Text.Normalize | content.js:87-93 | the normalized text holds only key characters and is no longer than the input |
| Text.NormalizeWords | content.js:87-93 | on words separated by runs of white space, with white space at either end, `normalize` gives each word lower-cased and stripped of disallowed characters, joined by single spaces |
| Text.NormalizeCanonical | content.js:87-93 | `normalize` is the identity on canonical strings (key characters only, no space at either end, no double space) |
| Text.NormalizeNotIdempotent | content.js:89-92 | `normalize("a !") == "a "` and normalizing that again gives `"a"`: stripping runs after trimming, so the result need not be trimmed and `normalize` is not idempotent |
| Parsing.ParseAgeToMs | content.js:95-103 | every accepted age is a whole number of seconds, and blank text gives `null`; `ParseAgeSound` and `ParseAgeComplete` give the exact accepted language and value |
| Parsing.UnitMs | content.js:101 | each unit letter has a positive number of milliseconds |
| Parsing.ParseAgeSound | content.js:95-103 | every accepted text, once trimmed and lower-cased, is digits, optional white space and one of `s m h d`, and the value is the number times 1000, 60000, 3600000 or 86400000 |
| Parsing.ParseAgeComplete | content.js:95-103 | every text of that shape is accepted with exactly that value; with `ParseAgeSound`, anything else yields `null` |
| Parsing.ParseAgeFortySeconds | content.js:95-103 | an example: `"40s"` parses to 40000 ms |
| Parsing.ParseTokenHref | content.js:105-109 | a match yields a non-empty chain without `/` and a non-empty address without `/ ? #`; `/chain/token/address` is a prefix of the link, followed by its end or by `/`, `?` or `#` |
| Parsing.ParseTokenHrefComplete | content.js:105-109 | a link built from such a chain and address parses back to them, whatever path, query or fragment follows |
| Keys.DecodeEncode | content.js:115-122 | every key `S:`, `N:` or `SN:S\|N` built from normalized fields decodes back to those fields |
| Keys.BuildKeys | content.js:111-123 | every key decodes to the field it was built from, in the order the mode gives |
| Keys.BuildKeysShape | content.js:115-122 | at most one key outside the "either" mode; `S:` only for a non-empty symbol, `N:` only for a non-empty name, `SN:` only when both are non-empty; in the "either" mode the `S:` key comes before the `N:` key |
| Keys.BuildKeysDistinct | content.js:111-123 | a token never carries the same key twice |
| Keys.BuildKeysBodies | content.js:111-123 | every key body is made of `a-z0-9`, U+4E00..U+9FA5 and space only |
| Keys.SameGroupIff | content.js:111-123 | two tokens share a key exactly when the fields the mode looks at are equal and non-empty once normalized |
| Tokens.TokenFromRow | content.js:191-215 | a row yields a token exactly when its link parses; the token carries the parsed chain and address, the parsed age, and the row's symbol, name and slot |
| Tokens.InWindowByAge | content.js:217-219 | in the window only with an age; an age of 0 is always in a non-negative window |
| Tokens.InWindowMonotone | content.js:217-219 | a younger token is in the window whenever an older one is |
| Tokens.InWindowBoundary | content.js:217-219 | an age of exactly `windowMinutes` minutes is in the window and one millisecond more is not; a negative window holds nothing |
| Tokens.CanCompare | content.js:779 | comparable only with an age; without the window option exactly when there is an age, with it exactly when the age is in the window |
| Tokens.CollectEntries | content.js:764-786 | at most one entry per row, and every entry has a key; `CollectEntriesMembers` says which entries |
| Tokens.CollectEntriesMembers | content.js:764-786 | the collected entries are exactly the rows with at least one key, each in the form the collection rule gives |
| Tokens.CollectedEntryFacts | content.js:776-782 | a collected entry has keys, its keys are `buildKeys` of its token, it is comparable exactly when it has an age inside the window (when the window applies), and it is new exactly when its identity was not known |
| Leaders.IsEarlierThan | content.js:297-301 | an earlier token is at least as old, and differs in age or slot; a strictly older token is always earlier; on equal ages, the greater slot index is earlier |
| Leaders.EarlierIrreflexive | content.js:297-301 | no token is earlier than itself |
| Leaders.EarlierAsymmetric | content.js:297-301 | `isEarlierThan` is asymmetric |
| Leaders.EarlierTransitive | content.js:297-301 | `isEarlierThan` is transitive |
| Leaders.EarlierTotal | content.js:297-301 | two different (age, slot) pairs are always ordered one way or the other |
| Leaders.StepIndex | content.js:802-809 | after one observation the key is indexed, its leader is the new record or the old leader, and neither is earlier than the leader kept; a record that is not earlier, an exact tie included, leaves the old leader; every other key keeps its record |
| Leaders.StepDup | content.js:798-800 | one observation adds at most its own key to the duplicate set, and adds it exactly when that key's leader has a different identity |
| Leaders.ReplayDupIndexed | content.js:795-810 | a key only becomes a duplicate once it is indexed |
| Leaders.ObservationsAppend | content.js:792-811 | the observations of two batches in a row are those of the first followed by those of the second |
| Leaders.ReplayLeaders | content.js:802-809 | after any sequence of observations, each key's leader was observed for that key, and no observation of that key is earlier |
| Leaders.ReplayDupKeys | content.js:798-800 | a key becomes a duplicate exactly when two of its observations carry different identities |
| Leaders.BuildIndexLeaders | content.js:788-812 | after `computeFirstIndex`: each key's leader is a comparable token carrying that key, no comparable token carrying it is earlier, and every key of a comparable token is indexed |
| Leaders.IndexIgnoresNonComparable | content.js:793 | non-comparable tokens (no age, or outside the window) change nothing in the index, wherever they stand |
| Leaders.BuildDupKeysIff | content.js:795-800 | `buildDupKeys` holds `k` exactly when two comparable tokens with different `chain:address` carry `k` |
| Leaders.IsTokenFirstInIndex | content.js:835-843 | true exactly when no key of the token is led by another identity |
| Leaders.FirstIndexed | content.js:253-262 | the record of the first key, in key order, that the index holds; none exactly when no key is held |
| Leaders.AddressPart | content.js:258 | `split(":")[1]` is undefined exactly when the identity has no colon |
| Leaders.AddressPartOfAddrKey | content.js:258 | an identity built from a colon-free chain and address gives back the address |
| Leaders.AddressPartTruncates | content.js:258 | an address containing a colon comes back cut at its first colon |
| Leaders.GetFirstTokenInfo | content.js:252-276 | none exactly when neither index holds any key; when the render index holds a key, the record of its first such key in key order; otherwise the record of the build index's first such key |
| Leaders.ShouldHideSlot | content.js:927-937 | "all" and unknown modes hide nothing; "onlyFirst" hides non-first; "onlyDup" hides first; "hideNonSameNameFirst" hides exactly the tokens with no key in the duplicate set |
| Locks.LockState | content.js:745-751 | the identity holds the new lock stamped `now`, every other identity keeps its lock, and no identity is added besides it |
| Locks.GetLockedState | content.js:736-743 | a lock is returned exactly when one is stored and younger than 2000 ms, and it is the stored one |
| Locks.LockExpiresForGood | content.js:736-743 | once a lock has expired it stays expired |
| Locks.LockStateLive | content.js:745-751 | a lock just taken is live for exactly 2000 ms and holds what was locked; no other identity's lock changes |
| Locks.CleanExpired | content.js:753-760 | exactly the locks younger than 4000 ms are kept, unchanged |
| Locks.CleanExpiredUnobservable | content.js:753-760 | at any later time, cleaning changes no identity's live lock |
| Locks.OtherLeads | content.js:852-857 | true exactly when some key of the token is led by another identity in `buildIndex` |
| Locks.ValidateStateChange | content.js:845-862 | accepted when there is no live lock, when the new value is "first", and when another identity leads one of the token's keys |
| Locks.ValidateRefusesOnly | content.js:845-862 | a change is refused exactly when a live lock says "first", the new value says "duplicate", and every indexed key of the token is led by the token itself |
| Locks.OtherLeadsIffNotFirst | content.js:852-857 | the loop of `validateStateChange` is the negation of `isTokenFirstInIndex` on the same index |
| Locks.ValidateAcceptsComputed | content.js:872-875 | the classification computed from `buildIndex` always passes validation, whatever the locks and the clock |
| Locks.DecideState | content.js:869-900 | the decision keeps the token's identity and newness; for a new token, or one without a live lock, it is the computed classification with the token's keys |
| Locks.LockNeverOverrides | content.js:886-900 | every decision is the computed classification with the token's own keys, so the retained-lock branch at line 895 is never taken |
| Locks.Decisions | content.js:869-901 | the decision list has one decision per token, in batch order |
| Locks.RelockLast | content.js:903-921 | after relocking, an identity holds its last change's classification and keys, stamped `now` |
| Locks.RelockFresh | content.js:920 | every changed identity holds a lock stamped `now` |
| Locks.RelockUntouched | content.js:903-921 | identities outside the changes keep their locks |
| Locks.ApplyLocksComputed | content.js:869-921 | after `applyMarkersWithLock`, a token that occurs once in the batch holds a fresh lock with its computed classification and its own keys |
| Stats.Unit | content.js:305-310 | `autoBuy` counts one purchase, `detection` one detection, anything else nothing |
| Stats.MergeStats | content.js:328-339 | the stored totals grow by the flushed counts; the daily count is reset on a new day before it is added to, and the reset date becomes today |
| Stats.MergeTwice | content.js:319-348 | two successful flushes on the same day store what one flush of their sum would |
| AutoBuy.HistoryEarlierStrict | content.js:357-361 | the winner test of the history loop is irreflexive, asymmetric and transitive |
| AutoBuy.MissingAgeUnordered | content.js:357-361 | a sighting without an age and one of age 0 are never ordered, whatever their slots |
| AutoBuy.Best | content.js:352-364 | the running best is one of the sightings; `BestIsFirst` adds that none is earlier |
| AutoBuy.BestIsFirst | content.js:352-364 | the running best is one of the sightings, and no sighting is earlier |
| AutoBuy.FindFirstTokenFromHistory | content.js:352-364 | `null` exactly for an empty history, otherwise a sighting of the history that no other sighting beats |
| AutoBuy.Within | content.js:592 | the window is no longer than the history and holds only sightings at most `windowMs` old |
| AutoBuy.WithinMembers | content.js:592 | the window keeps exactly the sightings at most `windowMs` old |
| AutoBuy.WithinNested | content.js:629 | a wider, earlier filter followed by a narrower, later one is the narrower one alone |
| AutoBuy.CheckKeysSkipsTriggered | content.js:574-576 | a triggered key keeps its history and its mark, and the triggered set only grows |
| AutoBuy.CheckKeysFires | content.js:573-615 | for distinct keys, a check fires exactly when some untriggered key's window reaches the threshold, and then on the first such key |
| AutoBuy.CheckKeysHistory | content.js:578-613 | for distinct keys: the fired key has no history; when nothing fires, every untriggered key of the token holds its window with the new sighting; when the check fires at position `i`, exactly the untriggered keys before `i` received it; every other key keeps its history |
| AutoBuy.TriggeredGrowth | content.js:612 | a check adds its fired key, and only that key, to the triggered set |
| AutoBuy.CheckKeysKeepsCleared | content.js:612-613 | a check keeps every triggered key free of history |
| AutoBuy.TriggeredNeverAppended | content.js:574-576 | once triggered, a key stays triggered and is never given a history again until reset |
| AutoBuy.CheckStepCountsDetection | content.js:603 | a check counts exactly one detection per key it triggers, and no purchases |
| AutoBuy.CleanHistory | content.js:619-636 | only keys that had a history remain, none of them triggered or empty, and every remaining sighting is at most five minutes old |
| AutoBuy.CleanIndistinguishable | content.js:619-636 | no later check with a window of at most five minutes can tell a cleaned history from the original |
| AutoBuy.CleanNeverChangesDecision | content.js:619-636 | for a later check, at a clock no earlier than the cleanup, with a window of at most five minutes: cleaning the history never changes whether, or on which key, it fires |
| AutoBuy.CleanCanChangeDecision | content.js:619-636 | with a ten-minute window, a key that fires on the full history does not fire on the cleaned one |
| AutoBuy.ExecuteStart | content.js:475-491 | either nothing changes, or the lock was free and the identity not bought, and the lock is taken for a purchase of that identity |
| AutoBuy.ExecuteFinish | content.js:494-509 | the attempt ends; the lock, history and triggered keys are unchanged; the purchased set gains at most the awaited identity; detections are unchanged |
| AutoBuy.ReleaseLock | content.js:511-515 | the lock is released and nothing else changes |
| AutoBuy.CheckStep | content.js:566-617 | with auto-buy off, the script off or outside the first column, nothing changes; the purchased set and the purchase count never change; under the lock, the lock and the awaited purchase stay as they were |
| AutoBuy.CleanStep | content.js:619-636 | only the history changes; it keeps no new key, no triggered key and no empty list |
| AutoBuy.ResetEngine | content.js:1022-1040 | history, triggered and purchased sets are emptied; the lock, an awaited purchase and the pending counts survive |
| AutoBuy.ExecuteStartGuards | content.js:475-491 | nothing happens under the lock or for an identity already bought; otherwise the purchase starts and takes the lock |
| AutoBuy.ExecuteFinishCounts | content.js:494-509 | a success adds one new identity to the purchased set and exactly one purchase to the pending counts; a failure changes neither |
| AutoBuy.EngineEventsPreserve | content.js:475-636 | every engine event keeps the invariant, and only a reset shrinks the purchased set |
| AutoBuy.AutoBuyBatchPreserves | content.js:877-879 | the checks of a batch keep the invariant and never forget a purchase |
| Sniper.Sniper.constructor | content.js:38-72 | every index, lock and history starts empty, the lock is free and nothing is pending |
| Sniper.Sniper.CollectTokens | content.js:764-786 | the loop returns exactly the collected entries of the rows |
| Sniper.Sniper.ComputeFirstIndex | content.js:788-812 | clearing and refilling in place leaves `buildIndex` and `buildDupKeys` equal to the fold over the batch's observations |
| Sniper.Sniper.IndexEntry | content.js:795-810 | the inner loop folds the token's observations into the index, one key at a time |
| Sniper.Sniper.ComputeFirstColumnIndex | content.js:814-833 | `firstColumnIndex` becomes the leader map of the same fold |
| Sniper.Sniper.IndexFirstColumnEntry | content.js:820-831 | the inner loop folds the token's observations into the first-column index |
| Sniper.Sniper.GetFirstTokenInfoOf | content.js:252-276 | the two loops return `getFirstTokenInfo` of the two indexes |
| Sniper.Sniper.LockStateAt | content.js:745-751 | `confirmedStates` gains a lock stamped `now` |
| Sniper.Sniper.CleanExpiredStates | content.js:753-760 | deleting while iterating leaves exactly the locks younger than 4000 ms |
| Sniper.Sniper.QueueStatsUpdate | content.js:305-317 | the pending counts grow by one event of the given kind |
| Sniper.Sniper.BeginFlush | content.js:319-325 | nothing is taken when nothing is pending; otherwise all pending counts are taken, reset, and recorded as in flight |
| Sniper.Sniper.FinishFlush | content.js:327-347 | for counts a flush has in flight: on failure, the pending counts are what was queued since plus what was taken; either way those counts are no longer in flight |
| Sniper.Sniper.ExecuteAutoBuy | content.js:475-491 | the engine takes the `ExecuteStart` step; a purchase starts exactly when the lock is free and the identity is not bought |
| Sniper.Sniper.FinishAutoBuy | content.js:494-509 | the engine takes the `ExecuteFinish` step and keeps its invariant |
| Sniper.Sniper.ReleaseAutoBuyLock | content.js:511-515 | the engine takes the `ReleaseLock` step and keeps its invariant |
| Sniper.Sniper.CheckAutoBuyCondition | content.js:566-617 | the engine takes the `CheckStep` step and keeps its invariant |
| Sniper.Sniper.ScanKeys | content.js:573-616 | the loop over the keys reaches the outcome of the `CheckKeys` fold |
| Sniper.Sniper.ScanKey | content.js:574-615 | one turn reaches the outcome of `KeyStep`, and reports whether it fired |
| Sniper.Sniper.CleanAutoBuyHistory | content.js:619-636 | deleting and rewriting while iterating leaves `CleanHistory` of the old map; the invariant is kept |
| Sniper.Sniper.DecideToken | content.js:870-900 | one turn returns `DecideState` of the token and runs the auto-buy check exactly for new tokens in the first column with auto-buy on |
| Sniper.Sniper.DecideTokens | content.js:869-901 | the first loop returns every token's decision in batch order and the batch's identities, and runs the batch's checks |
| Sniper.Sniper.RelockChanges | content.js:903-921 | the second loop relocks every decision in turn and hides each slot by `shouldHideSlot` of its decision |
| Sniper.Sniper.ApplyMarkersWithLock | content.js:864-925 | the locks are the relock of the decisions, each slot's hide flag uses the computed classification, `knownAddresses` is exactly the batch's identities, and the engine took the batch's checks |
| Sniper.Sniper.RebuildIndexes | content.js:975-979 | the build index is rebuilt; for the first column only, the first-column index is recomputed by its own loop and proved equal to the build index |
| Sniper.Sniper.MarkTokens | content.js:975-984 | rebuild, then mark with the duplicate set left by the previously scanned column, then publish this column's index |
| Sniper.Sniper.ScanBody | content.js:969-989 | a scan of one column: collected entries, indexes, hide flags computed with the `renderDupKeys` of the previously scanned column, locks, known identities and engine state, each as the functions specify |
| Sniper.Sniper.ResetAll | content.js:1022-1040 | every index, lock and auto-buy record is cleared; the lock flag, an awaited purchase and the pending counts survive |

## Left out

- DOM access: row extraction (`extractSymbolAndName`, `extractAge`, `getRowElement`, `isFirstColumn`, `getFirstColumnBody`), markers, `relayoutBody`, notifications, `findTokenRowInFirstColumn`, `findAndClickBuyButton` and `gotoFirstToken`. Rows arrive as extracted tokens, and `ApplyMarkersWithLock` returns the hide flag of each slot instead of editing classes and `needsRelayout`.
- `findAndBuyTokenInFirstColumn` is browser automation. Its outcome is the `success` argument of `FinishAutoBuy`.
- Timers and scheduling are not modelled: `scheduleScan`, `scanAllColumns`, `onScroll`, `onMutation`, `initObserver`, and the `isProcessing`, `pendingScan` and `scanGeneration` guards. The 5 s stats debounce and the 1 s lock release become explicit method calls.
- The `Math.random() < 0.1` cleanup trigger is not modelled. `CleanExpiredStates` and `CleanAutoBuyHistory` are plain operations.
- `chrome.storage` (`loadCfg`, the `onChanged` listener, the reads and writes of `flushStatsUpdate`) is not modelled. The configuration is a constructor argument, and the write outcome is the `ok` argument of `FinishFlush`.
- `Date.now()` is one `now` argument per call, although the source reads the clock separately in `getLockedState`, `validateStateChange`, `lockState` and `checkAutoBuyCondition`. `toDateString()` is a `today` string argument.
- Language detection, i18n strings and console logging are presentation only.
- `Lower` maps only ASCII letters. Full Unicode `toLowerCase` (multi-character and non-ASCII mappings) is not modelled.
- Numbers are unbounded integers: ages, slots and minutes. Floating point, a `NaN` slot index from `parseInt`, and ages large enough to lose precision are not modelled.
- `getFirstColumnFirstTokenInfo` is not modelled: nothing in the script calls it.
- Stats.MergeStats: the stored record always has its three counters. A stored record with a missing counter, which the source treats as 0, is not modelled.
- AutoBuy.CleanNeverChangesDecision: holds only for an `autoBuyTimeWindow` of at most 300 s. The setting is not bounded, and the random cleanup keeps only five minutes of sightings. So with a wider window the cleanup can change a later decision (`AutoBuy.CleanCanChangeDecision`).
- Sniper.Sniper.CleanAutoBuyHistory: the branch that deletes the history of a triggered key is kept, but under the engine invariant it is never taken.
- Sniper.Sniper.GetFirstTokenInfoOf: the address of a record comes from `AddressPart`, so an identity without a colon gives a missing address (`undefined` in the source).
