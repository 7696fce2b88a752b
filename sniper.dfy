/**
 * The module globals of the content script (content.js:38-72) and the
 * operations that update them in place, each proved to reach the state the
 * functions of the other modules specify.
 */
module Sniper {
  import opened Wrappers
  import opened Settings
  import opened Tokens
  import opened Leaders
  import opened Locks
  import opened AutoBuy
  import opened Stats
  import opened Keys

  class Sniper {
    var cfg: Config
    var renderIndex: map<string, LeaderRecord>
    var renderDupKeys: set<string>
    var buildIndex: map<string, LeaderRecord>
    var buildDupKeys: set<string>
    var firstColumnIndex: map<string, LeaderRecord>
    var confirmedStates: map<string, LockedState>
    var knownAddresses: set<string>
    var autoBuyTokenHistory: map<string, seq<HistoryEntry>>
    var autoBuyPurchasedTokens: set<string>
    var autoBuyTriggeredKeys: set<string>
    var autoBuyLock: bool
    /** The identity whose purchase `executeAutoBuy` is awaiting, if any. */
    var pendingBuy: Option<string>
    var pendingStatsUpdate: Counters
    /** The counts of every `flushStatsUpdate` taken and still awaiting
        storage; several flushes may be in flight at once. */
    ghost var inFlight: multiset<Counters>

    /** The auto-buy globals as one value. */
    function EngineState(): Engine
      reads this`autoBuyTokenHistory, this`autoBuyTriggeredKeys, this`autoBuyPurchasedTokens, this`autoBuyLock, this`pendingBuy, this`pendingStatsUpdate
    {
      Engine(autoBuyTokenHistory, autoBuyTriggeredKeys, autoBuyPurchasedTokens, autoBuyLock, pendingBuy, pendingStatsUpdate)
    }

    predicate Valid()
      reads this`autoBuyTokenHistory, this`autoBuyTriggeredKeys, this`autoBuyPurchasedTokens, this`autoBuyLock, this`pendingBuy, this`pendingStatsUpdate
    {
      EngineInv(EngineState())
    }

    /** The script's start, with the configuration `loadCfg` produced. */
    constructor (config: Config)
      ensures Valid() && cfg == config
      ensures renderIndex == map[] && renderDupKeys == {} && buildIndex == map[] && buildDupKeys == {}
      ensures firstColumnIndex == map[] && confirmedStates == map[] && knownAddresses == {}
      ensures EngineState() == Engine(map[], {}, {}, false, None, Zero) && inFlight == multiset{}
    {
      cfg := config;
      renderIndex, renderDupKeys, buildIndex, buildDupKeys := map[], {}, map[], {};
      firstColumnIndex, confirmedStates, knownAddresses := map[], map[], {};
      autoBuyTokenHistory, autoBuyPurchasedTokens, autoBuyTriggeredKeys := map[], {}, {};
      autoBuyLock, pendingBuy, pendingStatsUpdate := false, None, Zero;
      inFlight := multiset{};
    }

    // ------------------------------------------------------------ collection and index

    /** `collectTokens` over the rows the page shows, already extracted. */
    method CollectTokens(rows: seq<Token>) returns (es: seq<Entry>)
      ensures es == CollectEntries(rows, cfg, knownAddresses)
    {
      es := [];
      var i := 0;
      while i < |rows|
        invariant 0 <= i <= |rows|
        invariant es == CollectEntries(rows[..i], cfg, knownAddresses)
      {
        var token := rows[i];
        var addrKey := AddrKey(token.chain, token.address);
        var keys := BuildKeys(cfg.matchMode, token.symbol, token.name);
        ghost var e := EntryOf(token, cfg, knownAddresses);
        assert e.keys == keys && e.addrKey == addrKey;
        CollectEntriesSnoc(rows, cfg, knownAddresses, i);
        if keys != [] {
          var canCompare := token.ageMs.Some? && (!cfg.onlyWithinWindow || InWindowByAge(token.ageMs, cfg.windowMinutes));
          var isNew := addrKey !in knownAddresses;
          assert Entry(token, addrKey, keys, canCompare, isNew) == e;
          es := es + [Entry(token, addrKey, keys, canCompare, isNew)];
        }
        i := i + 1;
      }
      assert rows[..i] == rows;
    }

    /** `computeFirstIndex`: clears and refills `buildIndex` and
        `buildDupKeys`. */
    method ComputeFirstIndex(es: seq<Entry>)
      modifies this`buildIndex, this`buildDupKeys
      ensures IndexState(buildIndex, buildDupKeys) == BuildIndexOf(es)
    {
      buildIndex := map[];
      buildDupKeys := {};
      var i := 0;
      while i < |es|
        invariant 0 <= i <= |es|
        invariant IndexState(buildIndex, buildDupKeys) == Replay(Observations(es[..i]))
      {
        ObservationsStep(es, i);
        if es[i].canCompare {
          IndexEntry(es[i], Observations(es[..i]));
        }
        i := i + 1;
      }
      assert es[..i] == es;
    }

    /** The inner loop of `computeFirstIndex` over the keys of one
        comparable token. */
    method IndexEntry(e: Entry, ghost done: seq<Observation>)
      requires e.canCompare
      requires IndexState(buildIndex, buildDupKeys) == Replay(done)
      modifies this`buildIndex, this`buildDupKeys
      ensures IndexState(buildIndex, buildDupKeys) == Replay(done + EntryObservations(e))
    {
      var j := 0;
      assert done + EntryObservations(e)[..0] == done;
      while j < |e.keys|
        invariant 0 <= j <= |e.keys|
        invariant IndexState(buildIndex, buildDupKeys) == Replay(done + EntryObservations(e)[..j])
      {
        var k := e.keys[j];
        ghost var after := Step(IndexState(buildIndex, buildDupKeys), Observation(k, RecordOf(e)));
        ReplayEntryStep(done, e, j);
        assert after == Replay(done + EntryObservations(e)[..j + 1]);
        StepOf(IndexState(buildIndex, buildDupKeys), e, k);
        if k in buildIndex && buildIndex[k].firstAddr != e.addrKey {
          buildDupKeys := buildDupKeys + {k};
        }
        if k !in buildIndex || IsEarlierThan(AgeOf(e), e.token.slotIndex, buildIndex[k].firstAgeMs, buildIndex[k].firstSlotIndex) {
          buildIndex := buildIndex[k := LeaderRecord(e.addrKey, AgeOf(e), e.token.slotIndex, e.token.chain)];
        }
        assert IndexState(buildIndex, buildDupKeys) == after;
        j := j + 1;
      }
      assert EntryObservations(e)[..j] == EntryObservations(e);
    }

    /** `computeFirstColumnIndex`: the same leaders, without duplicate
        tracking. */
    method ComputeFirstColumnIndex(es: seq<Entry>)
      modifies this`firstColumnIndex
      ensures firstColumnIndex == BuildIndexOf(es).index
    {
      firstColumnIndex := map[];
      var i := 0;
      while i < |es|
        invariant 0 <= i <= |es|
        invariant firstColumnIndex == Replay(Observations(es[..i])).index
      {
        ObservationsStep(es, i);
        if es[i].canCompare {
          IndexFirstColumnEntry(es[i], Observations(es[..i]));
        }
        i := i + 1;
      }
      assert es[..i] == es;
    }

    /** The inner loop of `computeFirstColumnIndex` over the keys of one
        comparable token. */
    method IndexFirstColumnEntry(e: Entry, ghost done: seq<Observation>)
      requires e.canCompare
      requires firstColumnIndex == Replay(done).index
      modifies this`firstColumnIndex
      ensures firstColumnIndex == Replay(done + EntryObservations(e)).index
    {
      var j := 0;
      assert done + EntryObservations(e)[..0] == done;
      while j < |e.keys|
        invariant 0 <= j <= |e.keys|
        invariant firstColumnIndex == Replay(done + EntryObservations(e)[..j]).index
      {
        var k := e.keys[j];
        ghost var before := Replay(done + EntryObservations(e)[..j]);
        ghost var after := Step(before, Observation(k, RecordOf(e)));
        ReplayEntryStep(done, e, j);
        assert after == Replay(done + EntryObservations(e)[..j + 1]);
        StepOf(before, e, k);
        if k !in firstColumnIndex || IsEarlierThan(AgeOf(e), e.token.slotIndex, firstColumnIndex[k].firstAgeMs, firstColumnIndex[k].firstSlotIndex) {
          firstColumnIndex := firstColumnIndex[k := LeaderRecord(e.addrKey, AgeOf(e), e.token.slotIndex, e.token.chain)];
        }
        assert firstColumnIndex == after.index;
        j := j + 1;
      }
      assert EntryObservations(e)[..j] == EntryObservations(e);
    }

    /** `getFirstTokenInfo` over the two indexes. */
    method GetFirstTokenInfoOf(keys: seq<string>) returns (r: Option<TokenInfo>)
      ensures r == GetFirstTokenInfo(keys, renderIndex, buildIndex)
    {
      var i := 0;
      while i < |keys|
        invariant 0 <= i <= |keys|
        invariant forall j :: 0 <= j < i ==> keys[j] !in renderIndex
      {
        if keys[i] in renderIndex {
          FirstIndexedAt(keys, renderIndex, i);
          return Some(InfoOf(renderIndex[keys[i]]));
        }
        i := i + 1;
      }
      i := 0;
      while i < |keys|
        invariant 0 <= i <= |keys|
        invariant forall j :: 0 <= j < i ==> keys[j] !in buildIndex
      {
        if keys[i] in buildIndex {
          FirstIndexedAt(keys, buildIndex, i);
          return Some(InfoOf(buildIndex[keys[i]]));
        }
        i := i + 1;
      }
      return None;
    }

    // ------------------------------------------------------------ state locks

    /** `lockState` at time `now`. */
    method LockStateAt(addrKey: string, isFirst: bool, keys: seq<string>, now: int)
      modifies this`confirmedStates
      ensures confirmedStates == LockState(old(confirmedStates), addrKey, isFirst, keys, now)
    {
      confirmedStates := confirmedStates[addrKey := LockedState(isFirst, now, keys)];
    }

    /** `cleanExpiredStates`: deletes, while walking the map, every lock at
        least twice the lock duration old. */
    method CleanExpiredStates(now: int)
      modifies this`confirmedStates
      ensures confirmedStates == CleanExpired(old(confirmedStates), now)
    {
      ghost var start := confirmedStates;
      var todo := confirmedStates.Keys;
      while todo != {}
        invariant todo <= start.Keys
        invariant forall a :: a in todo ==> a in confirmedStates && confirmedStates[a] == start[a]
        invariant forall a :: a !in todo ==> (a in confirmedStates <==> a in CleanExpired(start, now))
        invariant forall a :: a !in todo && a in confirmedStates ==> confirmedStates[a] == start[a]
        decreases todo
      {
        var key :| key in todo;
        var state := confirmedStates[key];
        if now - state.confirmedAt >= StateLockDuration * 2 {
          confirmedStates := confirmedStates - {key};
        }
        todo := todo - {key};
      }
      assert confirmedStates.Keys == CleanExpired(start, now).Keys;
    }

    // ------------------------------------------------------------ statistics

    /** `queueStatsUpdate`, without its debounce timer. */
    method QueueStatsUpdate(kind: StatKind)
      modifies this`pendingStatsUpdate
      ensures pendingStatsUpdate == Add(old(pendingStatsUpdate), Unit(kind))
    {
      if kind == AutoBuyStat {
        pendingStatsUpdate := pendingStatsUpdate.(autoBuys := pendingStatsUpdate.autoBuys + 1);
      } else if kind == DetectionStat {
        pendingStatsUpdate := pendingStatsUpdate.(detections := pendingStatsUpdate.detections + 1);
      }
    }

    /** The part of `flushStatsUpdate` before its storage calls: nothing when
        nothing is pending, otherwise the pending counts are taken and reset. */
    method BeginFlush() returns (taken: Option<Counters>)
      modifies this`pendingStatsUpdate, this`inFlight
      ensures old(pendingStatsUpdate) == Zero ==> taken == None && pendingStatsUpdate == Zero
      ensures old(pendingStatsUpdate) != Zero ==> taken == Some(old(pendingStatsUpdate)) && pendingStatsUpdate == Zero
      ensures inFlight == if taken.Some? then old(inFlight) + multiset{taken.value} else old(inFlight)
    {
      if pendingStatsUpdate.autoBuys == 0 && pendingStatsUpdate.detections == 0 {
        return None;
      }
      taken := Some(pendingStatsUpdate);
      inFlight := inFlight + multiset{pendingStatsUpdate};
      pendingStatsUpdate := Zero;
    }

    /** The end of `flushStatsUpdate` for counts `taken` that a `BeginFlush`
        took, given whether the storage read and write succeeded: on failure
        the taken counts are added back to whatever was queued meanwhile. */
    method FinishFlush(taken: Counters, ok: bool)
      requires taken in inFlight
      modifies this`pendingStatsUpdate, this`inFlight
      ensures inFlight == old(inFlight) - multiset{taken}
      ensures pendingStatsUpdate == if ok then old(pendingStatsUpdate) else Add(old(pendingStatsUpdate), taken)
    {
      if !ok {
        pendingStatsUpdate := pendingStatsUpdate.(autoBuys := pendingStatsUpdate.autoBuys + taken.autoBuys);
        pendingStatsUpdate := pendingStatsUpdate.(detections := pendingStatsUpdate.detections + taken.detections);
      }
      inFlight := inFlight - multiset{taken};
    }

    // ------------------------------------------------------------ auto-buy

    /** `executeAutoBuy` up to its `await`: returns whether a purchase was
        started. */
    method ExecuteAutoBuy(chain: string, address: string) returns (started: bool)
      modifies this`autoBuyLock, this`pendingBuy
      ensures old(Valid()) ==> Valid()
      ensures EngineState() == ExecuteStart(old(EngineState()), AddrKey(chain, address))
      ensures started <==> !old(autoBuyLock) && AddrKey(chain, address) !in autoBuyPurchasedTokens
    {
      if Valid() {
        EngineEventsPreserve(EngineState(), cfg, [], Token("", "", "", "", None, 0), false, 0, AddrKey(chain, address), false);
      }
      if autoBuyLock {
        return false;
      }
      var addrKey := AddrKey(chain, address);
      if addrKey in autoBuyPurchasedTokens {
        return false;
      }
      autoBuyLock := true;
      pendingBuy := Some(addrKey);
      return true;
    }

    /** The awaited purchase finished with outcome `success`. */
    method FinishAutoBuy(success: bool)
      requires Valid() && pendingBuy.Some?
      modifies this`autoBuyPurchasedTokens, this`pendingStatsUpdate, this`pendingBuy
      ensures Valid()
      ensures EngineState() == ExecuteFinish(old(EngineState()), success)
    {
      EngineEventsPreserve(EngineState(), cfg, [], Token("", "", "", "", None, 0), false, 0, "", success);
      if success {
        autoBuyPurchasedTokens := autoBuyPurchasedTokens + {pendingBuy.value};
        QueueStatsUpdate(AutoBuyStat);
      }
      pendingBuy := None;
    }

    /** The timer that releases `autoBuyLock` after a finished attempt. */
    method ReleaseAutoBuyLock()
      requires Valid() && pendingBuy.None?
      modifies this`autoBuyLock
      ensures Valid()
      ensures EngineState() == ReleaseLock(old(EngineState()))
    {
      autoBuyLock := false;
    }

    /** `checkAutoBuyCondition` for `token` with match keys `keys`, at time
        `now`. */
    method CheckAutoBuyCondition(keys: seq<string>, token: Token, isInFirstColumn: bool, now: int)
      modifies this`autoBuyTokenHistory, this`autoBuyTriggeredKeys, this`pendingStatsUpdate, this`autoBuyLock, this`pendingBuy
      ensures old(Valid()) ==> Valid()
      ensures EngineState() == CheckStep(old(EngineState()), cfg, keys, token, isInFirstColumn, now)
    {
      if Valid() {
        EngineEventsPreserve(EngineState(), cfg, keys, token, isInFirstColumn, now, "", false);
      }
      if !cfg.autoBuyEnabled || !cfg.enabled {
        return;
      }
      if !isInFirstColumn {
        return;
      }
      var timeWindowMs := cfg.autoBuyTimeWindow * 1000;
      ScanKeys(keys, token, now, timeWindowMs, cfg.autoBuyMinDuplicates);
    }

    /** The loop of `checkAutoBuyCondition` over `keys`. */
    method ScanKeys(keys: seq<string>, token: Token, now: int, timeWindowMs: int, minDup: int)
      modifies this`autoBuyTokenHistory, this`autoBuyTriggeredKeys, this`pendingStatsUpdate, this`autoBuyLock, this`pendingBuy
      ensures EngineState() == ScanOutcome(old(EngineState()), CheckKeys(HistoryState(old(autoBuyTokenHistory), old(autoBuyTriggeredKeys)), keys, token, now, timeWindowMs, minDup))
    {
      ghost var s0 := EngineState();
      ghost var goal := CheckKeys(HistoryState(s0.history, s0.triggered), keys, token, now, timeWindowMs, minDup);
      assert keys[0..] == keys;
      var i := 0;
      while i < |keys|
        invariant 0 <= i <= |keys|
        invariant goal == CheckKeys(HistoryState(autoBuyTokenHistory, autoBuyTriggeredKeys), keys[i..], token, now, timeWindowMs, minDup)
        invariant EngineState() == s0.(history := autoBuyTokenHistory, triggered := autoBuyTriggeredKeys)
      {
        CheckKeysAt(HistoryState(autoBuyTokenHistory, autoBuyTriggeredKeys), keys, i, token, now, timeWindowMs, minDup);
        var fired := ScanKey(keys[i], token, now, timeWindowMs, minDup);
        if fired {
          return;
        }
        i := i + 1;
      }
    }

    /** One turn of the loop of `checkAutoBuyCondition`: a key not yet
        triggered gets the sighting and its window; if the window holds
        enough distinct addresses, the key fires. Returns whether it fired. */
    method ScanKey(key: string, token: Token, now: int, timeWindowMs: int, minDup: int) returns (fired: bool)
      modifies this`autoBuyTokenHistory, this`autoBuyTriggeredKeys, this`pendingStatsUpdate, this`autoBuyLock, this`pendingBuy
      ensures var r := KeyStep(HistoryState(old(autoBuyTokenHistory), old(autoBuyTriggeredKeys)), key, token, now, timeWindowMs, minDup);
        fired == r.fired.Some? && EngineState() == ScanOutcome(old(EngineState()), r)
    {
      if key in autoBuyTriggeredKeys {
        return false;
      }
      ghost var st := HistoryState(autoBuyTokenHistory, autoBuyTriggeredKeys);
      var history := if key in autoBuyTokenHistory then autoBuyTokenHistory[key] else [];
      history := history + [ItemOf(token, now)];
      var validHistory := Within(history, now, timeWindowMs);
      assert validHistory == Appended(st, key, token, now, timeWindowMs);
      autoBuyTokenHistory := autoBuyTokenHistory[key := validHistory];
      var uniqueAddresses := Addresses(validHistory);
      if |uniqueAddresses| >= minDup {
        FireAutoBuy(key, validHistory);
        assert autoBuyTokenHistory == st.history - {key};
        return true;
      }
      return false;
    }

    /** The body of the firing branch of `checkAutoBuyCondition`: count a
        detection, start a purchase of the window's winner if there is one,
        then mark `key` triggered and drop its history. */
    method FireAutoBuy(key: string, validHistory: seq<HistoryEntry>)
      modifies this`autoBuyTokenHistory, this`autoBuyTriggeredKeys, this`pendingStatsUpdate, this`autoBuyLock, this`pendingBuy
      ensures var s := old(EngineState()).(history := old(autoBuyTokenHistory) - {key}, triggered := old(autoBuyTriggeredKeys) + {key});
        var s2 := s.(pending := Add(s.pending, Unit(DetectionStat)));
        EngineState() == if validHistory == [] then s2 else ExecuteStart(s2, AddrKey(Best(validHistory).chain, Best(validHistory).address))
    {
      QueueStatsUpdate(DetectionStat);
      var firstToken := FindFirstTokenFromHistory(validHistory);
      if firstToken.Some? {
        var _ := ExecuteAutoBuy(firstToken.value.chain, firstToken.value.address);
      }
      autoBuyTriggeredKeys := autoBuyTriggeredKeys + {key};
      autoBuyTokenHistory := autoBuyTokenHistory - {key};
    }

    /** `cleanAutoBuyHistory` at time `now`: walks the history map, deleting
        triggered keys and keys whose recent sightings are gone, and keeping
        the rest windowed to five minutes. */
    method CleanAutoBuyHistory(now: int)
      modifies this`autoBuyTokenHistory
      ensures old(Valid()) ==> Valid()
      ensures EngineState() == CleanStep(old(EngineState()), now)
    {
      if Valid() {
        EngineEventsPreserve(EngineState(), cfg, [], Token("", "", "", "", None, 0), false, now, "", false);
      }
      ghost var start := autoBuyTokenHistory;
      ghost var goal := CleanHistory(start, autoBuyTriggeredKeys, now);
      var maxAge := 300000;
      var todo := autoBuyTokenHistory.Keys;
      while todo != {}
        invariant todo <= start.Keys
        invariant forall k :: k in todo ==> k in autoBuyTokenHistory && autoBuyTokenHistory[k] == start[k]
        invariant forall k :: k !in todo ==> (k in autoBuyTokenHistory <==> k in goal)
        invariant forall k :: k !in todo && k in autoBuyTokenHistory ==> autoBuyTokenHistory[k] == goal[k]
        decreases todo
      {
        var key :| key in todo;
        var history := autoBuyTokenHistory[key];
        if key in autoBuyTriggeredKeys {
          autoBuyTokenHistory := autoBuyTokenHistory - {key};
        } else {
          var validHistory := Within(history, now, maxAge);
          if validHistory == [] {
            autoBuyTokenHistory := autoBuyTokenHistory - {key};
          } else {
            autoBuyTokenHistory := autoBuyTokenHistory[key := validHistory];
          }
        }
        todo := todo - {key};
      }
      assert autoBuyTokenHistory.Keys == goal.Keys;
    }

    // ------------------------------------------------------------ a scan

    /** One turn of the first loop of `applyMarkersWithLock`: classify `e`,
        run the auto-buy check when `e` is new, and decide its state change. */
    method DecideToken(e: Entry, isInFirstColumn: bool, now: int) returns (change: StateChange)
      requires Valid()
      modifies this`autoBuyTokenHistory, this`autoBuyTriggeredKeys, this`pendingStatsUpdate, this`autoBuyLock, this`pendingBuy
      ensures Valid()
      ensures change == DecideState(e, buildIndex, confirmedStates, now)
      ensures EngineState() == if e.isNew && cfg.autoBuyEnabled && isInFirstColumn then CheckStep(old(EngineState()), cfg, e.keys, e.token, isInFirstColumn, now) else old(EngineState())
    {
      var isFirst := true;
      if e.canCompare {
        isFirst := IsTokenFirstInIndex(e.addrKey, e.keys, buildIndex);
      }
      if e.isNew && cfg.autoBuyEnabled && isInFirstColumn {
        CheckAutoBuyCondition(e.keys, e.token, isInFirstColumn, now);
      }
      if e.isNew {
        return StateChange(e.addrKey, e.keys, isFirst, true);
      }
      var locked := GetLockedState(confirmedStates, e.addrKey, now);
      if locked.Some? {
        if locked.value.isFirst == isFirst {
          change := StateChange(e.addrKey, e.keys, isFirst, false);
        } else if ValidateStateChange(confirmedStates, buildIndex, e.addrKey, e.keys, isFirst, now) {
          change := StateChange(e.addrKey, e.keys, isFirst, false);
        } else {
          change := StateChange(e.addrKey, locked.value.keys, locked.value.isFirst, false);
        }
      } else {
        change := StateChange(e.addrKey, e.keys, isFirst, false);
      }
    }

    /** `applyMarkersWithLock` for `es` at time `now`: decides every token,
        runs the auto-buy check for new tokens, then for every decision
        computes whether its slot is hidden, which is returned, and relocks
        it; `knownAddresses` becomes the identities of the batch. */
    method ApplyMarkersWithLock(es: seq<Entry>, isInFirstColumn: bool, now: int) returns (hidden: seq<bool>)
      requires Valid()
      modifies this`confirmedStates, this`knownAddresses
      modifies this`autoBuyTokenHistory, this`autoBuyTriggeredKeys, this`pendingStatsUpdate, this`autoBuyLock, this`pendingBuy
      ensures Valid()
      ensures confirmedStates == Relock(old(confirmedStates), Decisions(es, buildIndex, old(confirmedStates), now), now)
      ensures knownAddresses == AddrKeys(es)
      ensures |hidden| == |es|
      ensures forall i :: 0 <= i < |es| ==>
        hidden[i] == ShouldHideSlot(cfg.showMode, renderDupKeys, ComputedIsFirst(es[i], buildIndex), es[i].keys)
      ensures EngineState() == AutoBuyBatch(old(EngineState()), cfg, es, isInFirstColumn, now)
    {
      ghost var states0 := confirmedStates;
      var stateChanges, newKnownAddresses := DecideTokens(es, isInFirstColumn, now);
      hidden := RelockChanges(stateChanges, now);
      forall j | 0 <= j < |es|
        ensures hidden[j] == ShouldHideSlot(cfg.showMode, renderDupKeys, ComputedIsFirst(es[j], buildIndex), es[j].keys)
      {
        LockNeverOverrides(es[j], buildIndex, states0, now);
      }
      knownAddresses := newKnownAddresses;
    }

    /** The first loop of `applyMarkersWithLock`: every token's decision, in
        batch order, and the identities seen. */
    method DecideTokens(es: seq<Entry>, isInFirstColumn: bool, now: int) returns (stateChanges: seq<StateChange>, newKnownAddresses: set<string>)
      requires Valid()
      modifies this`autoBuyTokenHistory, this`autoBuyTriggeredKeys, this`pendingStatsUpdate, this`autoBuyLock, this`pendingBuy
      ensures Valid()
      ensures stateChanges == Decisions(es, buildIndex, confirmedStates, now)
      ensures newKnownAddresses == AddrKeys(es)
      ensures EngineState() == AutoBuyBatch(old(EngineState()), cfg, es, isInFirstColumn, now)
    {
      ghost var s0 := EngineState();
      newKnownAddresses := {};
      stateChanges := [];
      var i := 0;
      while i < |es|
        invariant 0 <= i <= |es|
        invariant Valid()
        invariant newKnownAddresses == AddrKeys(es[..i])
        invariant |stateChanges| == i
        invariant forall j :: 0 <= j < i ==> stateChanges[j] == DecideState(es[j], buildIndex, confirmedStates, now)
        invariant EngineState() == AutoBuyBatch(s0, cfg, es[..i], isInFirstColumn, now)
      {
        AddrKeysSnoc(es, i);
        AutoBuyBatchSnoc(s0, cfg, es, isInFirstColumn, now, i);
        newKnownAddresses := newKnownAddresses + {es[i].addrKey};
        var change := DecideToken(es[i], isInFirstColumn, now);
        stateChanges := stateChanges + [change];
        i := i + 1;
      }
      assert es[..i] == es;
    }

    /** The second loop of `applyMarkersWithLock`: each change's slot is
        hidden or shown by `shouldHideSlot`, and its identity relocked. */
    method RelockChanges(cs: seq<StateChange>, now: int) returns (hidden: seq<bool>)
      modifies this`confirmedStates
      ensures confirmedStates == Relock(old(confirmedStates), cs, now)
      ensures |hidden| == |cs|
      ensures forall j :: 0 <= j < |cs| ==> hidden[j] == ShouldHideSlot(cfg.showMode, renderDupKeys, cs[j].isFirst, cs[j].keys)
    {
      hidden := [];
      var n := 0;
      while n < |cs|
        invariant 0 <= n <= |cs|
        invariant confirmedStates == Relock(old(confirmedStates), cs[..n], now)
        invariant |hidden| == n
        invariant forall j :: 0 <= j < n ==> hidden[j] == ShouldHideSlot(cfg.showMode, renderDupKeys, cs[j].isFirst, cs[j].keys)
      {
        var c := cs[n];
        var shouldHide := ShouldHideSlot(cfg.showMode, renderDupKeys, c.isFirst, c.keys);
        hidden := hidden + [shouldHide];
        assert cs[..n + 1][..n] == cs[..n];
        LockStateAt(c.addrKey, c.isFirst, c.keys, now);
        n := n + 1;
      }
      assert cs[..n] == cs;
    }

    /** `scanBody` for one column whose extracted rows are `rows`: collect
        the tokens, then mark them. */
    method ScanBody(rows: seq<Token>, isInFirstColumn: bool, now: int) returns (es: seq<Entry>, hidden: seq<bool>)
      requires Valid()
      modifies this`buildIndex, this`buildDupKeys, this`firstColumnIndex, this`renderIndex, this`renderDupKeys
      modifies this`confirmedStates, this`knownAddresses
      modifies this`autoBuyTokenHistory, this`autoBuyTriggeredKeys, this`pendingStatsUpdate, this`autoBuyLock, this`pendingBuy
      ensures Valid()
      ensures es == CollectEntries(rows, cfg, old(knownAddresses))
      ensures IndexState(buildIndex, buildDupKeys) == BuildIndexOf(es)
      ensures renderIndex == buildIndex && renderDupKeys == buildDupKeys
      ensures isInFirstColumn ==> firstColumnIndex == buildIndex
      ensures !isInFirstColumn ==> firstColumnIndex == old(firstColumnIndex)
      ensures |hidden| == |es|
      ensures forall i :: 0 <= i < |es| ==>
        hidden[i] == ShouldHideSlot(cfg.showMode, old(renderDupKeys), ComputedIsFirst(es[i], buildIndex), es[i].keys)
      ensures confirmedStates == Relock(old(confirmedStates), Decisions(es, buildIndex, old(confirmedStates), now), now)
      ensures knownAddresses == AddrKeys(es)
      ensures EngineState() == AutoBuyBatch(old(EngineState()), cfg, es, isInFirstColumn, now)
    {
      es := CollectTokens(rows);
      hidden := MarkTokens(es, isInFirstColumn, now);
    }

    /** The rest of `scanBody` once the tokens are collected: rebuild the
        index (and the first-column index for the first column), apply the
        markers with the duplicate set of the previous `scanBody` call (the
        previously scanned column), then publish this scan's index. */
    method MarkTokens(es: seq<Entry>, isInFirstColumn: bool, now: int) returns (hidden: seq<bool>)
      requires Valid()
      modifies this`buildIndex, this`buildDupKeys, this`firstColumnIndex, this`renderIndex, this`renderDupKeys
      modifies this`confirmedStates, this`knownAddresses
      modifies this`autoBuyTokenHistory, this`autoBuyTriggeredKeys, this`pendingStatsUpdate, this`autoBuyLock, this`pendingBuy
      ensures Valid()
      ensures IndexState(buildIndex, buildDupKeys) == BuildIndexOf(es)
      ensures renderIndex == buildIndex && renderDupKeys == buildDupKeys
      ensures isInFirstColumn ==> firstColumnIndex == buildIndex
      ensures !isInFirstColumn ==> firstColumnIndex == old(firstColumnIndex)
      ensures |hidden| == |es|
      ensures forall i :: 0 <= i < |es| ==>
        hidden[i] == ShouldHideSlot(cfg.showMode, old(renderDupKeys), ComputedIsFirst(es[i], buildIndex), es[i].keys)
      ensures confirmedStates == Relock(old(confirmedStates), Decisions(es, buildIndex, old(confirmedStates), now), now)
      ensures knownAddresses == AddrKeys(es)
      ensures EngineState() == AutoBuyBatch(old(EngineState()), cfg, es, isInFirstColumn, now)
    {
      ghost var engine0, states0, dup0 := EngineState(), confirmedStates, renderDupKeys;
      RebuildIndexes(es, isInFirstColumn);
      assert EngineState() == engine0 && confirmedStates == states0 && renderDupKeys == dup0;
      hidden := ApplyMarkersWithLock(es, isInFirstColumn, now);
      renderIndex := buildIndex;
      renderDupKeys := buildDupKeys;
    }

    /** The index phase of `scanBody`: this scan's index, recomputed into the
        first-column index when the column is the first. */
    method RebuildIndexes(es: seq<Entry>, isInFirstColumn: bool)
      modifies this`buildIndex, this`buildDupKeys, this`firstColumnIndex
      ensures IndexState(buildIndex, buildDupKeys) == BuildIndexOf(es)
      ensures isInFirstColumn ==> firstColumnIndex == buildIndex
      ensures !isInFirstColumn ==> firstColumnIndex == old(firstColumnIndex)
    {
      ComputeFirstIndex(es);
      if isInFirstColumn {
        ComputeFirstColumnIndex(es);
      }
    }

    /** `resetAll`, without its DOM clean-up: every index, lock and auto-buy
        record is cleared; the lock flag, an awaited purchase and the pending
        counts survive. */
    method ResetAll()
      requires Valid()
      modifies this`renderIndex, this`renderDupKeys, this`buildIndex, this`buildDupKeys
      modifies this`firstColumnIndex, this`confirmedStates, this`knownAddresses
      modifies this`autoBuyTokenHistory, this`autoBuyPurchasedTokens, this`autoBuyTriggeredKeys
      ensures Valid()
      ensures renderIndex == map[] && renderDupKeys == {} && buildIndex == map[] && buildDupKeys == {}
      ensures firstColumnIndex == map[] && confirmedStates == map[] && knownAddresses == {}
      ensures EngineState() == ResetEngine(old(EngineState()))
    {
      EngineEventsPreserve(EngineState(), cfg, [], Token("", "", "", "", None, 0), false, 0, "", false);
      renderIndex, renderDupKeys, buildIndex, buildDupKeys := map[], {}, map[], {};
      firstColumnIndex, confirmedStates, knownAddresses := map[], map[], {};
      autoBuyTokenHistory, autoBuyPurchasedTokens, autoBuyTriggeredKeys := map[], {}, {};
    }
  }
}
