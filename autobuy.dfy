/**
 * The auto-buy engine (content.js:352-364, 475-516, 566-636): a sliding
 * window of sightings per match key, a key that fires at most once until
 * reset, the choice of the earliest-launched sighting, and the guards that
 * keep one purchase per identity.
 *
 * The purchase itself is asynchronous in the source; it is modelled as two
 * events, `ExecuteStart` (everything `executeAutoBuy` does before its
 * `await`) and `ExecuteFinish` (what it does with the purchase outcome),
 * and the delayed release of the lock as a third, `ReleaseLock`.
 */
module AutoBuy {
  import opened Wrappers
  import opened Tokens
  import opened Settings
  import opened Stats

  /** One element of an `autoBuyTokenHistory` list. */
  datatype HistoryEntry = HistoryEntry(timestamp: int, address: string, chain: string, ageMs: Option<nat>, slotIndex: int)

  /** The sighting of `t` at time `now`. */
  function ItemOf(t: Token, now: int): HistoryEntry
  {
    HistoryEntry(now, t.address, t.chain, t.ageMs, t.slotIndex)
  }

  // ---------------------------------------------------------------- the winner

  /** The number JavaScript's `>` compares: `null` counts as 0. */
  function NumOf(age: Option<nat>): int
  {
    if age.Some? then age.value else 0
  }

  /** The test in the loop of `findFirstTokenFromHistory`: a greater age, or
      a strictly equal age (`===`, so `null` only equals `null`) and a greater
      slot index. */
  predicate HistoryEarlier(a: HistoryEntry, b: HistoryEntry)
  {
    NumOf(a.ageMs) > NumOf(b.ageMs) || (a.ageMs == b.ageMs && a.slotIndex > b.slotIndex)
  }

  lemma HistoryEarlierStrict(a: HistoryEntry, b: HistoryEntry, c: HistoryEntry)
    ensures !HistoryEarlier(a, a)
    ensures HistoryEarlier(a, b) ==> !HistoryEarlier(b, a)
    ensures HistoryEarlier(a, b) && HistoryEarlier(b, c) ==> HistoryEarlier(a, c)
  {
  }

  /** A missing age and an age of 0 are never ordered, whatever the slots:
      `null > 0` and `0 > null` are false, and so is `null === 0`. */
  lemma MissingAgeUnordered(a: HistoryEntry, b: HistoryEntry)
    requires a.ageMs == None && b.ageMs == Some(0)
    ensures !HistoryEarlier(a, b) && !HistoryEarlier(b, a)
  {
  }

  /** The running best of the loop after the elements of `h`. */
  function Best(h: seq<HistoryEntry>): (r: HistoryEntry)
    requires h != []
    ensures r in h
  {
    if |h| == 1 then h[0]
    else
      var b := Best(h[..|h| - 1]);
      if HistoryEarlier(h[|h| - 1], b) then h[|h| - 1] else b
  }

  /** The winner is one of the sightings and none is earlier than it. */
  lemma {:induction false} BestIsFirst(h: seq<HistoryEntry>)
    requires h != []
    ensures Best(h) in h
    ensures forall i :: 0 <= i < |h| ==> !HistoryEarlier(h[i], Best(h))
  {
    if |h| > 1 {
      var p := h[..|h| - 1];
      BestIsFirst(p);
      assert forall i :: 0 <= i < |p| ==> h[i] == p[i];
      var b := Best(p);
      var x := h[|h| - 1];
      forall i | 0 <= i < |h| ensures !HistoryEarlier(h[i], Best(h)) {
        HistoryEarlierStrict(h[i], x, b);
        HistoryEarlierStrict(x, x, x);
      }
    }
  }

  /** `findFirstTokenFromHistory`. */
  method FindFirstTokenFromHistory(history: seq<HistoryEntry>) returns (r: Option<HistoryEntry>)
    ensures r.None? <==> history == []
    ensures r.Some? ==> r.value == Best(history)
    ensures r.Some? ==> r.value in history && forall i :: 0 <= i < |history| ==> !HistoryEarlier(history[i], r.value)
  {
    if history == [] {
      return None;
    }
    var firstToken := history[0];
    var i := 0;
    while i < |history|
      invariant 0 <= i <= |history|
      invariant firstToken == Best(history[..if i == 0 then 1 else i])
    {
      var token := history[i];
      if NumOf(token.ageMs) > NumOf(firstToken.ageMs) {
        firstToken := token;
      } else if token.ageMs == firstToken.ageMs && token.slotIndex > firstToken.slotIndex {
        firstToken := token;
      }
      assert history[..i + 1][..i] == history[..i];
      i := i + 1;
    }
    assert history[..i] == history;
    BestIsFirst(history);
    return Some(firstToken);
  }

  // ---------------------------------------------------------------- the window

  /** `history.filter(h => now - h.timestamp <= windowMs)`. */
  function Within(h: seq<HistoryEntry>, now: int, windowMs: int): (r: seq<HistoryEntry>)
    ensures |r| <= |h|
    ensures forall i :: 0 <= i < |r| ==> now - r[i].timestamp <= windowMs
  {
    if h == [] then []
    else (if now - h[0].timestamp <= windowMs then [h[0]] else []) + Within(h[1..], now, windowMs)
  }

  /** The window keeps exactly the sightings at most `windowMs` old. */
  lemma {:induction false} WithinMembers(h: seq<HistoryEntry>, now: int, windowMs: int)
    ensures forall x :: x in Within(h, now, windowMs) <==> x in h && now - x.timestamp <= windowMs
  {
    if h != [] {
      WithinMembers(h[1..], now, windowMs);
      assert h == [h[0]] + h[1..];
    }
  }

  lemma {:induction false} WithinAppend(a: seq<HistoryEntry>, b: seq<HistoryEntry>, now: int, windowMs: int)
    ensures Within(a + b, now, windowMs) == Within(a, now, windowMs) + Within(b, now, windowMs)
  {
    if a != [] {
      assert (a + b)[1..] == a[1..] + b;
      WithinAppend(a[1..], b, now, windowMs);
    } else {
      assert a + b == b;
    }
  }

  /** A wider, earlier filter followed by a narrower, later one is the
      narrower one alone. */
  lemma {:induction false} WithinNested(h: seq<HistoryEntry>, now0: int, w0: int, now: int, w: int)
    requires now0 <= now && w <= w0
    ensures Within(Within(h, now0, w0), now, w) == Within(h, now, w)
  {
    if h != [] {
      WithinNested(h[1..], now0, w0, now, w);
      if now0 - h[0].timestamp <= w0 {
        assert Within(h, now0, w0) == [h[0]] + Within(h[1..], now0, w0);
        assert ([h[0]] + Within(h[1..], now0, w0))[1..] == Within(h[1..], now0, w0);
      } else {
        var t := Within(h[1..], now0, w0);
        assert Within(h, now0, w0) == [] + t;
        assert [] + t == t;
        assert Within(h, now, w) == [] + Within(h[1..], now, w);
        assert [] + Within(h[1..], now, w) == Within(h[1..], now, w);
      }
    }
  }

  /** `new Set(validHistory.map(h => h.address))`. */
  function Addresses(h: seq<HistoryEntry>): set<string>
  {
    set x | x in h :: x.address
  }

  // ---------------------------------------------------------------- one check

  datatype HistoryState = HistoryState(history: map<string, seq<HistoryEntry>>, triggered: set<string>)

  /** A key that reached the duplicate threshold, with its windowed history. */
  datatype Fired = Fired(key: string, validHistory: seq<HistoryEntry>)

  datatype KeyScan = KeyScan(state: HistoryState, fired: Option<Fired>)

  /** A key's history, the empty list when it has none. */
  function Get(h: map<string, seq<HistoryEntry>>, k: string): seq<HistoryEntry>
  {
    if k in h then h[k] else []
  }

  /** The windowed history of `k` once the sighting of `t` is appended. */
  function Appended(st: HistoryState, k: string, t: Token, now: int, windowMs: int): seq<HistoryEntry>
  {
    Within(Get(st.history, k) + [ItemOf(t, now)], now, windowMs)
  }

  /** The loop of `checkAutoBuyCondition` over `keys` (content.js:573-615):
      triggered keys are skipped, every other key gets the sighting and its
      window, and the first key whose window holds `minDup` distinct
      addresses fires, is marked triggered, loses its history, and ends the
      loop. */
  function CheckKeys(st: HistoryState, keys: seq<string>, t: Token, now: int, windowMs: int, minDup: int): (r: KeyScan)
    decreases |keys|
  {
    if keys == [] then KeyScan(st, None)
    else
      var k := keys[0];
      if k in st.triggered then CheckKeys(st, keys[1..], t, now, windowMs, minDup)
      else
        var valid := Appended(st, k, t, now, windowMs);
        if |Addresses(valid)| >= minDup then
          KeyScan(HistoryState(st.history - {k}, st.triggered + {k}), Some(Fired(k, valid)))
        else CheckKeys(HistoryState(st.history[k := valid], st.triggered), keys[1..], t, now, windowMs, minDup)
  }

  /** One turn of the loop of `checkAutoBuyCondition`, for key `k`. */
  function KeyStep(st: HistoryState, k: string, t: Token, now: int, windowMs: int, minDup: int): KeyScan
  {
    if k in st.triggered then KeyScan(st, None)
    else
      var valid := Appended(st, k, t, now, windowMs);
      if |Addresses(valid)| >= minDup then KeyScan(HistoryState(st.history - {k}, st.triggered + {k}), Some(Fired(k, valid)))
      else KeyScan(HistoryState(st.history[k := valid], st.triggered), None)
  }

  /** The loop is its turns in order, stopping at the first that fires. */
  lemma CheckKeysAt(st: HistoryState, keys: seq<string>, i: int, t: Token, now: int, windowMs: int, minDup: int)
    requires 0 <= i < |keys|
    ensures var r := KeyStep(st, keys[i], t, now, windowMs, minDup);
      CheckKeys(st, keys[i..], t, now, windowMs, minDup) ==
        if r.fired.Some? then r else CheckKeys(r.state, keys[i + 1..], t, now, windowMs, minDup)
  {
    assert keys[i..][0] == keys[i] && keys[i..][1..] == keys[i + 1..];
  }

  predicate Distinct(keys: seq<string>)
  {
    forall i, j :: 0 <= i < j < |keys| ==> keys[i] != keys[j]
  }

  /** No triggered key has a history. */
  predicate TriggeredCleared(st: HistoryState)
  {
    forall k :: k in st.triggered ==> k !in st.history
  }

  /** Key position `i` is where the check fires with `f`: the first
      untriggered key whose window reaches the threshold. */
  predicate FiresAt(st: HistoryState, keys: seq<string>, t: Token, now: int, windowMs: int, minDup: int, i: int, f: Fired)
  {
    0 <= i < |keys| && keys[i] == f.key && keys[i] !in st.triggered &&
    f.validHistory == Appended(st, keys[i], t, now, windowMs) &&
    |Addresses(f.validHistory)| >= minDup &&
    forall j :: 0 <= j < i && keys[j] !in st.triggered ==> |Addresses(Appended(st, keys[j], t, now, windowMs))| < minDup
  }

  /** Firing at position `i` of the tail, after a head that did not fire,
      is firing at position `i + 1`. */
  lemma FiresAtCons(st: HistoryState, st': HistoryState, keys: seq<string>, t: Token, now: int, windowMs: int, minDup: int, i: int, f: Fired)
    requires keys != [] && st'.triggered == st.triggered
    requires keys[0] in st.triggered || |Addresses(Appended(st, keys[0], t, now, windowMs))| < minDup
    requires forall j :: 1 <= j < |keys| ==> Appended(st', keys[j], t, now, windowMs) == Appended(st, keys[j], t, now, windowMs)
    requires FiresAt(st', keys[1..], t, now, windowMs, minDup, i, f)
    ensures FiresAt(st, keys, t, now, windowMs, minDup, i + 1, f)
  {
    assert keys[i + 1] == keys[1..][i];
    forall j | 0 <= j < i + 1 && keys[j] !in st.triggered
      ensures |Addresses(Appended(st, keys[j], t, now, windowMs))| < minDup
    {
      if j > 0 {
        assert keys[j] == keys[1..][j - 1];
      }
    }
  }

  /** Triggered keys are skipped: their history and their mark stay as
      they were; the triggered set only grows. */
  lemma {:induction false} CheckKeysSkipsTriggered(st: HistoryState, keys: seq<string>, t: Token, now: int, windowMs: int, minDup: int, k: string)
    requires k in st.triggered
    ensures var r := CheckKeys(st, keys, t, now, windowMs, minDup);
      k in r.state.triggered && (k in r.state.history <==> k in st.history) &&
      (k in st.history ==> r.state.history[k] == st.history[k])
    ensures st.triggered <= CheckKeys(st, keys, t, now, windowMs, minDup).state.triggered
    decreases |keys|
  {
    if keys != [] && keys[0] !in st.triggered {
      var valid := Appended(st, keys[0], t, now, windowMs);
      if |Addresses(valid)| < minDup {
        CheckKeysSkipsTriggered(HistoryState(st.history[keys[0] := valid], st.triggered), keys[1..], t, now, windowMs, minDup, k);
      }
    } else if keys != [] {
      CheckKeysSkipsTriggered(st, keys[1..], t, now, windowMs, minDup, k);
    }
  }

  /** When one check fires, for distinct keys: exactly when some untriggered
      key's window reaches the threshold, and then on the first such key. */
  lemma {:induction false} CheckKeysFires(st: HistoryState, keys: seq<string>, t: Token, now: int, windowMs: int, minDup: int)
    requires Distinct(keys)
    ensures var r := CheckKeys(st, keys, t, now, windowMs, minDup);
      r.fired.None? <==> forall i :: 0 <= i < |keys| && keys[i] !in st.triggered ==>
        |Addresses(Appended(st, keys[i], t, now, windowMs))| < minDup
    ensures var r := CheckKeys(st, keys, t, now, windowMs, minDup);
      r.fired.Some? ==> exists i :: FiresAt(st, keys, t, now, windowMs, minDup, i, r.fired.value)
    decreases |keys|
  {
    if keys != [] {
      var k0 := keys[0];
      var rest := keys[1..];
      assert Distinct(rest);
      assert forall i :: 0 <= i < |rest| ==> rest[i] == keys[i + 1];
      var st' := st;
      if k0 !in st.triggered {
        var valid := Appended(st, k0, t, now, windowMs);
        if |Addresses(valid)| >= minDup {
          assert FiresAt(st, keys, t, now, windowMs, minDup, 0, Fired(k0, valid));
          return;
        }
        st' := HistoryState(st.history[k0 := valid], st.triggered);
        assert forall j :: 1 <= j < |keys| ==> keys[j] != k0;
      }
      assert forall j :: 1 <= j < |keys| ==> Appended(st', keys[j], t, now, windowMs) == Appended(st, keys[j], t, now, windowMs);
      CheckKeysFires(st', rest, t, now, windowMs, minDup);
      var r := CheckKeys(st', rest, t, now, windowMs, minDup);
      assert CheckKeys(st, keys, t, now, windowMs, minDup) == r;
      if r.fired.Some? {
        var i :| FiresAt(st', rest, t, now, windowMs, minDup, i, r.fired.value);
        FiresAtCons(st, st', keys, t, now, windowMs, minDup, i, r.fired.value);
      }
    }
  }

  /** What one check leaves in the history of the untriggered keys other
      than the fired one, `visited` being the keys the loop reached before it
      stopped: each of those holds its windowed history with the sighting,
      and every other key keeps the history it had. */
  ghost predicate HistoryAfter(st: HistoryState, r: KeyScan, visited: seq<string>, t: Token, now: int, windowMs: int)
  {
    forall k :: k !in st.triggered && (r.fired.None? || k != r.fired.value.key) ==>
      Get(r.state.history, k) == if k in visited then Appended(st, k, t, now, windowMs) else Get(st.history, k)
  }

  /** What one check leaves in the history, for distinct keys: the fired key
      has none; when nothing fires, every untriggered key of the token holds
      its windowed history with the sighting; when the check fires at
      position `i`, exactly the keys before `i` received the sighting. Every
      key outside `keys` keeps its history. */
  lemma {:induction false} CheckKeysHistory(st: HistoryState, keys: seq<string>, t: Token, now: int, windowMs: int, minDup: int)
    requires Distinct(keys)
    ensures var r := CheckKeys(st, keys, t, now, windowMs, minDup);
      r.fired.Some? ==> r.fired.value.key !in r.state.history
    ensures var r := CheckKeys(st, keys, t, now, windowMs, minDup);
      r.fired.None? ==> HistoryAfter(st, r, keys, t, now, windowMs)
    ensures var r := CheckKeys(st, keys, t, now, windowMs, minDup);
      forall i :: r.fired.Some? && FiresAt(st, keys, t, now, windowMs, minDup, i, r.fired.value) ==>
        HistoryAfter(st, r, keys[..i], t, now, windowMs)
    decreases |keys|
  {
    if keys != [] {
      var k0 := keys[0];
      var rest := keys[1..];
      assert Distinct(rest);
      if k0 !in st.triggered && |Addresses(Appended(st, k0, t, now, windowMs))| >= minDup {
        HistoryFiredFirst(st, keys, t, now, windowMs, minDup);
      } else {
        var st' := if k0 in st.triggered then st else HistoryState(st.history[k0 := Appended(st, k0, t, now, windowMs)], st.triggered);
        CheckKeysHistory(st', rest, t, now, windowMs, minDup);
        CheckKeysFires(st', rest, t, now, windowMs, minDup);
        HistoryLift(st, st', keys, t, now, windowMs, minDup);
      }
    }
  }

  /** `CheckKeysHistory` when the first key fires. */
  lemma HistoryFiredFirst(st: HistoryState, keys: seq<string>, t: Token, now: int, windowMs: int, minDup: int)
    requires Distinct(keys) && keys != [] && keys[0] !in st.triggered
    requires |Addresses(Appended(st, keys[0], t, now, windowMs))| >= minDup
    ensures var r := CheckKeys(st, keys, t, now, windowMs, minDup);
      r.fired.Some? && r.fired.value.key !in r.state.history &&
      forall i :: FiresAt(st, keys, t, now, windowMs, minDup, i, r.fired.value) ==>
        HistoryAfter(st, r, keys[..i], t, now, windowMs)
  {
    var r := CheckKeys(st, keys, t, now, windowMs, minDup);
    forall i | FiresAt(st, keys, t, now, windowMs, minDup, i, r.fired.value)
      ensures HistoryAfter(st, r, keys[..i], t, now, windowMs)
    {
      assert i == 0 && keys[..0] == [];
    }
  }

  /** The induction step of `CheckKeysHistory`: the first turn did not fire
      and left `st'`, and the tail obeys the lemma from `st'`. */
  lemma HistoryLift(st: HistoryState, st': HistoryState, keys: seq<string>, t: Token, now: int, windowMs: int, minDup: int)
    requires Distinct(keys) && keys != []
    requires keys[0] in st.triggered ==> st' == st
    requires keys[0] !in st.triggered ==>
      |Addresses(Appended(st, keys[0], t, now, windowMs))| < minDup &&
      st' == HistoryState(st.history[keys[0] := Appended(st, keys[0], t, now, windowMs)], st.triggered)
    requires var r := CheckKeys(st', keys[1..], t, now, windowMs, minDup);
      (r.fired.Some? ==> r.fired.value.key !in r.state.history) &&
      (r.fired.None? ==> HistoryAfter(st', r, keys[1..], t, now, windowMs)) &&
      (r.fired.Some? ==> exists i :: FiresAt(st', keys[1..], t, now, windowMs, minDup, i, r.fired.value)) &&
      (forall i :: r.fired.Some? && FiresAt(st', keys[1..], t, now, windowMs, minDup, i, r.fired.value) ==>
        HistoryAfter(st', r, keys[1..][..i], t, now, windowMs))
    ensures var r := CheckKeys(st, keys, t, now, windowMs, minDup);
      (r.fired.Some? ==> r.fired.value.key !in r.state.history) &&
      (r.fired.None? ==> HistoryAfter(st, r, keys, t, now, windowMs)) &&
      (forall i :: r.fired.Some? && FiresAt(st, keys, t, now, windowMs, minDup, i, r.fired.value) ==>
        HistoryAfter(st, r, keys[..i], t, now, windowMs))
  {
    var k0 := keys[0];
    var rest := keys[1..];
    var r := CheckKeys(st', rest, t, now, windowMs, minDup);
    assert CheckKeys(st, keys, t, now, windowMs, minDup) == r;
    assert forall j :: 1 <= j < |keys| ==> keys[j] != k0;
    if r.fired.Some? {
      HistoryLiftFired(st, st', keys, r, t, now, windowMs, minDup);
    } else {
      assert HistoryStep(st, st', r, keys, k0);
      HistoryStepVisited(st, st', r, keys, k0, rest, t, now, windowMs);
    }
  }

  /** `HistoryLift` when the tail fires. */
  lemma HistoryLiftFired(st: HistoryState, st': HistoryState, keys: seq<string>, r: KeyScan, t: Token, now: int, windowMs: int, minDup: int)
    requires Distinct(keys) && keys != [] && r.fired.Some?
    requires forall j :: 1 <= j < |keys| ==> keys[j] != keys[0]
    requires keys[0] in st.triggered ==> st' == st
    requires keys[0] !in st.triggered ==>
      st' == HistoryState(st.history[keys[0] := Appended(st, keys[0], t, now, windowMs)], st.triggered)
    requires exists i :: FiresAt(st', keys[1..], t, now, windowMs, minDup, i, r.fired.value)
    requires forall i :: FiresAt(st', keys[1..], t, now, windowMs, minDup, i, r.fired.value) ==>
      HistoryAfter(st', r, keys[1..][..i], t, now, windowMs)
    ensures forall i :: FiresAt(st, keys, t, now, windowMs, minDup, i, r.fired.value) ==>
      HistoryAfter(st, r, keys[..i], t, now, windowMs)
  {
    var k0 := keys[0];
    var rest := keys[1..];
    assert keys == [k0] + rest;
    var i0 :| FiresAt(st', rest, t, now, windowMs, minDup, i0, r.fired.value);
    assert r.fired.value.key == rest[i0];
    assert HistoryStep(st, st', r, keys, k0);
    forall i | FiresAt(st, keys, t, now, windowMs, minDup, i, r.fired.value)
      ensures HistoryAfter(st, r, keys[..i], t, now, windowMs)
    {
      FiresAtTail(st, st', keys, t, now, windowMs, minDup, i, r.fired.value);
      assert keys[..i] == [k0] + rest[..i - 1];
      HistoryStepVisited(st, st', r, keys, k0, rest[..i - 1], t, now, windowMs);
    }
  }

  /** The first turn of the loop, on `k0 = keys[0]`, did not fire and left `st'`. */
  predicate HistoryStep(st: HistoryState, st': HistoryState, r: KeyScan, keys: seq<string>, k0: string)
  {
    keys != [] && k0 == keys[0] && st'.triggered == st.triggered &&
    (k0 in st.triggered ==> st' == st) &&
    (k0 !in st.triggered ==> st'.history == st.history[k0 := Get(st'.history, k0)]) &&
    (r.fired.Some? ==> r.fired.value.key != k0)
  }

  /** Lifts `HistoryAfter` over the tail to the whole key list. */
  lemma HistoryStepVisited(st: HistoryState, st': HistoryState, r: KeyScan, keys: seq<string>, k0: string, visited: seq<string>, t: Token, now: int, windowMs: int)
    requires HistoryStep(st, st', r, keys, k0)
    requires k0 !in visited
    requires HistoryAfter(st', r, visited, t, now, windowMs)
    requires k0 !in st.triggered ==> Get(st'.history, k0) == Appended(st, k0, t, now, windowMs)
    ensures HistoryAfter(st, r, [k0] + visited, t, now, windowMs)
  {
    forall k | k !in st.triggered && (r.fired.None? || k != r.fired.value.key)
      ensures Get(r.state.history, k) == if k in [k0] + visited then Appended(st, k, t, now, windowMs) else Get(st.history, k)
    {
      if k != k0 {
        assert Get(st'.history, k) == Get(st.history, k);
      }
    }
  }

  /** Firing at position `i` after a first turn that did not fire is firing
      at position `i - 1` of the tail. */
  lemma FiresAtTail(st: HistoryState, st': HistoryState, keys: seq<string>, t: Token, now: int, windowMs: int, minDup: int, i: int, f: Fired)
    requires Distinct(keys) && keys != [] && st'.triggered == st.triggered
    requires keys[0] in st.triggered || f.key != keys[0]
    requires forall j :: 1 <= j < |keys| ==> Appended(st', keys[j], t, now, windowMs) == Appended(st, keys[j], t, now, windowMs)
    requires FiresAt(st, keys, t, now, windowMs, minDup, i, f)
    ensures 1 <= i && FiresAt(st', keys[1..], t, now, windowMs, minDup, i - 1, f)
  {
    assert keys[1..][i - 1] == keys[i];
    forall j | 0 <= j < i - 1 && keys[1..][j] !in st'.triggered
      ensures |Addresses(Appended(st', keys[1..][j], t, now, windowMs))| < minDup
    {
      assert keys[1..][j] == keys[j + 1];
    }
  }

  // ---------------------------------------------------------------- cleanup

  const MaxHistoryAge: int := 300000

  /** `cleanAutoBuyHistory`: triggered keys lose their history, the others
      keep the sightings of the last five minutes, and empty lists go. */
  function CleanHistory(h: map<string, seq<HistoryEntry>>, triggered: set<string>, now: int): (r: map<string, seq<HistoryEntry>>)
    ensures r.Keys <= h.Keys
    ensures forall k :: k in r ==> k !in triggered && r[k] != []
    ensures forall k, i :: k in r && 0 <= i < |r[k]| ==> now - r[k][i].timestamp <= MaxHistoryAge
  {
    map k | k in h && k !in triggered && Within(h[k], now, MaxHistoryAge) != [] :: Within(h[k], now, MaxHistoryAge)
  }

  /** Two history states that no check at time `now` with window `windowMs`
      can tell apart. */
  ghost predicate Indistinguishable(a: HistoryState, b: HistoryState, now: int, windowMs: int)
  {
    a.triggered == b.triggered &&
    forall k :: k !in a.triggered ==> Within(Get(a.history, k), now, windowMs) == Within(Get(b.history, k), now, windowMs)
  }

  /** Cleaning at `now0` cannot be told apart by any later check whose window
      is at most five minutes. */
  lemma CleanIndistinguishable(st: HistoryState, now0: int, now: int, windowMs: int)
    requires now0 <= now && windowMs <= MaxHistoryAge
    ensures Indistinguishable(HistoryState(CleanHistory(st.history, st.triggered, now0), st.triggered), st, now, windowMs)
  {
    var c := CleanHistory(st.history, st.triggered, now0);
    forall k | k !in st.triggered
      ensures Within(Get(c, k), now, windowMs) == Within(Get(st.history, k), now, windowMs)
    {
      if k in st.history {
        WithinNested(st.history[k], now0, MaxHistoryAge, now, windowMs);
        if k !in c {
          assert Within(Within(st.history[k], now0, MaxHistoryAge), now, windowMs) == [];
        }
      }
    }
  }

  /** Indistinguishable states make the same decision and stay
      indistinguishable. */
  lemma {:induction false} CheckKeysIndistinguishable(a: HistoryState, b: HistoryState, keys: seq<string>, t: Token, now: int, windowMs: int, minDup: int)
    requires Indistinguishable(a, b, now, windowMs)
    ensures CheckKeys(a, keys, t, now, windowMs, minDup).fired == CheckKeys(b, keys, t, now, windowMs, minDup).fired
    ensures Indistinguishable(CheckKeys(a, keys, t, now, windowMs, minDup).state, CheckKeys(b, keys, t, now, windowMs, minDup).state, now, windowMs)
    decreases |keys|
  {
    if keys != [] {
      assert keys[0..] == keys;
      CheckKeysAt(a, keys, 0, t, now, windowMs, minDup);
      CheckKeysAt(b, keys, 0, t, now, windowMs, minDup);
      KeyStepIndistinguishable(a, b, keys[0], t, now, windowMs, minDup);
      var ra := KeyStep(a, keys[0], t, now, windowMs, minDup);
      var rb := KeyStep(b, keys[0], t, now, windowMs, minDup);
      if ra.fired.None? {
        CheckKeysIndistinguishable(ra.state, rb.state, keys[1..], t, now, windowMs, minDup);
      }
    }
  }

  /** One turn of the loop cannot tell indistinguishable histories apart. */
  lemma KeyStepIndistinguishable(a: HistoryState, b: HistoryState, k: string, t: Token, now: int, windowMs: int, minDup: int)
    requires Indistinguishable(a, b, now, windowMs)
    ensures KeyStep(a, k, t, now, windowMs, minDup).fired == KeyStep(b, k, t, now, windowMs, minDup).fired
    ensures Indistinguishable(KeyStep(a, k, t, now, windowMs, minDup).state, KeyStep(b, k, t, now, windowMs, minDup).state, now, windowMs)
  {
    if k !in a.triggered {
      var item := [ItemOf(t, now)];
      WithinAppend(Get(a.history, k), item, now, windowMs);
      WithinAppend(Get(b.history, k), item, now, windowMs);
      var valid := Appended(a, k, t, now, windowMs);
      assert valid == Appended(b, k, t, now, windowMs);
      if |Addresses(valid)| < minDup {
        var a' := HistoryState(a.history[k := valid], a.triggered);
        var b' := HistoryState(b.history[k := valid], b.triggered);
        assert Indistinguishable(a', b', now, windowMs);
      } else {
        var a' := HistoryState(a.history - {k}, a.triggered + {k});
        var b' := HistoryState(b.history - {k}, b.triggered + {k});
        assert Indistinguishable(a', b', now, windowMs);
      }
    }
  }

  /** Cleaning the history never changes what a later check decides. */
  lemma CleanNeverChangesDecision(st: HistoryState, now0: int, keys: seq<string>, t: Token, now: int, windowMs: int, minDup: int)
    requires now0 <= now && windowMs <= MaxHistoryAge
    ensures CheckKeys(HistoryState(CleanHistory(st.history, st.triggered, now0), st.triggered), keys, t, now, windowMs, minDup).fired ==
      CheckKeys(st, keys, t, now, windowMs, minDup).fired
  {
    CleanIndistinguishable(st, now0, now, windowMs);
    CheckKeysIndistinguishable(HistoryState(CleanHistory(st.history, st.triggered, now0), st.triggered), st, keys, t, now, windowMs, minDup);
  }

  /** With a window wider than five minutes, cleaning can change a later
      decision: a sighting six minutes old still counts for a ten-minute
      window, but the cleanup has already dropped it. */
  lemma CleanCanChangeDecision()
    ensures var st := HistoryState(map["k" := [HistoryEntry(0, "a", "c", None, 0)]], {});
      var t := Token("c", "b", "", "", None, 0);
      CheckKeys(st, ["k"], t, 360000, 600000, 2).fired.Some? &&
      CheckKeys(HistoryState(CleanHistory(st.history, st.triggered, 360000), st.triggered), ["k"], t, 360000, 600000, 2).fired.None?
  {
    var old0 := HistoryEntry(0, "a", "c", None, 0);
    var st := HistoryState(map["k" := [old0]], {});
    var t := Token("c", "b", "", "", None, 0);
    var item := ItemOf(t, 360000);
    assert Within([old0, item], 360000, 600000) == [old0, item];
    assert Appended(st, "k", t, 360000, 600000) == [old0, item];
    assert Addresses([old0, item]) == {"a", "b"};
    assert |Addresses([old0, item])| == 2;
    var cleaned := CleanHistory(st.history, st.triggered, 360000);
    assert Within([old0], 360000, MaxHistoryAge) == [];
    assert cleaned == map[];
    var cst := HistoryState(cleaned, st.triggered);
    assert Within([item], 360000, 600000) == [item];
    assert Appended(cst, "k", t, 360000, 600000) == [item];
    assert Addresses([item]) == {"b"};
    assert CheckKeys(cst, ["k"][1..], t, 360000, 600000, 2).fired.None?;
  }

  // ---------------------------------------------------------------- the engine

  /** The auto-buy globals: `autoBuyTokenHistory`, `autoBuyTriggeredKeys`,
      `autoBuyPurchasedTokens`, `autoBuyLock`, the identity whose purchase is
      awaited, and `pendingStatsUpdate`. */
  datatype Engine = Engine(history: map<string, seq<HistoryEntry>>, triggered: set<string>, purchased: set<string>,
                           lock: bool, pendingBuy: Option<string>, pending: Counters)

  /** No triggered key has a history; a purchase is only awaited under the
      lock and for an identity not yet bought. */
  predicate EngineInv(s: Engine)
  {
    TriggeredCleared(HistoryState(s.history, s.triggered)) &&
    (s.pendingBuy.Some? ==> s.lock && s.pendingBuy.value !in s.purchased)
  }

  /** `executeAutoBuy` up to its `await` (content.js:475-491). */
  function ExecuteStart(s: Engine, addrKey: string): (r: Engine)
    ensures r == s || (!s.lock && addrKey !in s.purchased && r == s.(lock := true, pendingBuy := Some(addrKey)))
  {
    if s.lock then s
    else if addrKey in s.purchased then s
    else s.(lock := true, pendingBuy := Some(addrKey))
  }

  /** `executeAutoBuy` after the purchase attempt (content.js:495-509): only a
      success records the identity and counts a purchase. */
  function ExecuteFinish(s: Engine, success: bool): (r: Engine)
    requires s.pendingBuy.Some?
    ensures r.pendingBuy.None? && r.lock == s.lock && r.history == s.history && r.triggered == s.triggered
    ensures s.purchased <= r.purchased <= s.purchased + {s.pendingBuy.value}
    ensures r.pending.detections == s.pending.detections
  {
    if success then s.(purchased := s.purchased + {s.pendingBuy.value}, pending := Add(s.pending, Unit(AutoBuyStat)), pendingBuy := None)
    else s.(pendingBuy := None)
  }

  /** The delayed release of `autoBuyLock` (content.js:512-514), scheduled
      once the attempt has finished. */
  function ReleaseLock(s: Engine): (r: Engine)
    requires s.pendingBuy.None?
    ensures !r.lock && r == s.(lock := false)
  {
    s.(lock := false)
  }

  /** `checkAutoBuyCondition` (content.js:566-617): when it fires, a
      detection is counted and, if the window has a winner, a purchase of
      the winner is started. */
  function CheckStep(s: Engine, cfg: Config, keys: seq<string>, t: Token, inFirstColumn: bool, now: int): (r: Engine)
    ensures !cfg.autoBuyEnabled || !cfg.enabled || !inFirstColumn ==> r == s
    ensures r.purchased == s.purchased && r.pending.autoBuys == s.pending.autoBuys
    ensures s.lock ==> r.lock && r.pendingBuy == s.pendingBuy
  {
    if !cfg.autoBuyEnabled || !cfg.enabled || !inFirstColumn then s
    else ScanOutcome(s, CheckKeys(HistoryState(s.history, s.triggered), keys, t, now, cfg.autoBuyTimeWindow * 1000, cfg.autoBuyMinDuplicates))
  }

  /** The engine after the loop of `checkAutoBuyCondition` scanned its keys
      with outcome `r`. */
  function ScanOutcome(s: Engine, r: KeyScan): Engine
  {
    var s1 := s.(history := r.state.history, triggered := r.state.triggered);
    match r.fired
    case None => s1
    case Some(f) =>
      var s2 := s1.(pending := Add(s1.pending, Unit(DetectionStat)));
      if f.validHistory == [] then s2
      else
        var w := Best(f.validHistory);
        ExecuteStart(s2, AddrKey(w.chain, w.address))
  }

  /** `cleanAutoBuyHistory` at time `now`. */
  function CleanStep(s: Engine, now: int): (r: Engine)
    ensures r == s.(history := r.history)
    ensures r.history.Keys <= s.history.Keys
    ensures forall k :: k in r.history ==> k !in s.triggered && r.history[k] != []
  {
    s.(history := CleanHistory(s.history, s.triggered, now))
  }

  /** The auto-buy part of `resetAll` (content.js:1031-1033): the lock, an
      awaited purchase and the pending counts survive. */
  function ResetEngine(s: Engine): (r: Engine)
    ensures r.history == map[] && r.triggered == {} && r.purchased == {}
    ensures r.lock == s.lock && r.pendingBuy == s.pendingBuy && r.pending == s.pending
  {
    s.(history := map[], triggered := {}, purchased := {})
  }

  /** A purchase is not started under the lock or for an identity already
      bought; otherwise it is started and takes the lock. */
  lemma ExecuteStartGuards(s: Engine, addrKey: string)
    ensures s.lock || addrKey in s.purchased ==> ExecuteStart(s, addrKey) == s
    ensures !s.lock && addrKey !in s.purchased ==>
      ExecuteStart(s, addrKey).lock && ExecuteStart(s, addrKey).pendingBuy == Some(addrKey) &&
      ExecuteStart(s, addrKey).purchased == s.purchased && ExecuteStart(s, addrKey).pending == s.pending
  {
  }

  /** No double counting: a successful purchase adds a new identity to the
      purchased set and exactly one purchase to the pending counts; a failed
      one changes neither. */
  lemma ExecuteFinishCounts(s: Engine, success: bool)
    requires EngineInv(s) && s.pendingBuy.Some?
    ensures var s' := ExecuteFinish(s, success);
      if success then
        s'.purchased == s.purchased + {s.pendingBuy.value} && |s'.purchased| == |s.purchased| + 1 &&
        s'.pending == Counters(s.pending.autoBuys + 1, s.pending.detections)
      else s'.purchased == s.purchased && s'.pending == s.pending
  {
  }

  /** Every event keeps the engine invariant, and only a reset shrinks the
      purchased set. */
  lemma EngineEventsPreserve(s: Engine, cfg: Config, keys: seq<string>, t: Token, inFirstColumn: bool, now: int, addrKey: string, success: bool)
    requires EngineInv(s)
    ensures EngineInv(ExecuteStart(s, addrKey)) && s.purchased <= ExecuteStart(s, addrKey).purchased
    ensures s.pendingBuy.Some? ==> EngineInv(ExecuteFinish(s, success)) && s.purchased <= ExecuteFinish(s, success).purchased
    ensures s.pendingBuy.None? ==> EngineInv(ReleaseLock(s)) && ReleaseLock(s).purchased == s.purchased
    ensures EngineInv(CheckStep(s, cfg, keys, t, inFirstColumn, now)) && s.purchased <= CheckStep(s, cfg, keys, t, inFirstColumn, now).purchased
    ensures EngineInv(CleanStep(s, now)) && CleanStep(s, now).purchased == s.purchased
    ensures EngineInv(ResetEngine(s))
  {
    CheckKeysKeepsCleared(HistoryState(s.history, s.triggered), keys, t, now, cfg.autoBuyTimeWindow * 1000, cfg.autoBuyMinDuplicates);
  }

  /** `CheckKeys` keeps triggered keys free of history, for any keys. */
  lemma {:induction false} CheckKeysKeepsCleared(st: HistoryState, keys: seq<string>, t: Token, now: int, windowMs: int, minDup: int)
    ensures TriggeredCleared(st) ==> TriggeredCleared(CheckKeys(st, keys, t, now, windowMs, minDup).state)
    decreases |keys|
  {
    if keys != [] {
      var k0 := keys[0];
      if k0 in st.triggered {
        CheckKeysKeepsCleared(st, keys[1..], t, now, windowMs, minDup);
      } else {
        var valid := Appended(st, k0, t, now, windowMs);
        if |Addresses(valid)| < minDup {
          CheckKeysKeepsCleared(HistoryState(st.history[k0 := valid], st.triggered), keys[1..], t, now, windowMs, minDup);
        }
      }
    }
  }

  /** Once a key is triggered, no check appends to it again: with the
      engine invariant it has no history before or after. */
  lemma TriggeredNeverAppended(s: Engine, cfg: Config, keys: seq<string>, t: Token, inFirstColumn: bool, now: int, k: string)
    requires EngineInv(s) && k in s.triggered
    ensures k in CheckStep(s, cfg, keys, t, inFirstColumn, now).triggered
    ensures k !in CheckStep(s, cfg, keys, t, inFirstColumn, now).history
  {
    CheckKeysSkipsTriggered(HistoryState(s.history, s.triggered), keys, t, now, cfg.autoBuyTimeWindow * 1000, cfg.autoBuyMinDuplicates, k);
  }

  /** When a check fires, exactly one detection is counted. */
  lemma CheckStepCountsDetection(s: Engine, cfg: Config, keys: seq<string>, t: Token, inFirstColumn: bool, now: int)
    ensures var s' := CheckStep(s, cfg, keys, t, inFirstColumn, now);
      s'.pending.autoBuys == s.pending.autoBuys &&
      s'.pending.detections == s.pending.detections + |s'.triggered - s.triggered|
  {
    if cfg.autoBuyEnabled && cfg.enabled && inFirstColumn {
      var st := HistoryState(s.history, s.triggered);
      var r := CheckKeys(st, keys, t, now, cfg.autoBuyTimeWindow * 1000, cfg.autoBuyMinDuplicates);
      TriggeredGrowth(st, keys, t, now, cfg.autoBuyTimeWindow * 1000, cfg.autoBuyMinDuplicates);
      if r.fired.Some? {
        assert r.state.triggered - s.triggered == {r.fired.value.key};
      } else {
        assert r.state.triggered - s.triggered == {};
      }
    } else {
      assert s.triggered - s.triggered == {};
    }
  }

  /** A check adds its fired key, and only that, to the triggered set. */
  lemma {:induction false} TriggeredGrowth(st: HistoryState, keys: seq<string>, t: Token, now: int, windowMs: int, minDup: int)
    ensures var r := CheckKeys(st, keys, t, now, windowMs, minDup);
      if r.fired.Some? then r.fired.value.key !in st.triggered && r.state.triggered == st.triggered + {r.fired.value.key}
      else r.state.triggered == st.triggered
    decreases |keys|
  {
    if keys != [] {
      var k0 := keys[0];
      if k0 in st.triggered {
        TriggeredGrowth(st, keys[1..], t, now, windowMs, minDup);
      } else {
        var valid := Appended(st, k0, t, now, windowMs);
        if |Addresses(valid)| < minDup {
          TriggeredGrowth(HistoryState(st.history[k0 := valid], st.triggered), keys[1..], t, now, windowMs, minDup);
        }
      }
    }
  }

  /** The checks the first loop of `applyMarkersWithLock` makes over a batch
      (content.js:877-879): one per new token, in batch order, when auto-buy
      is on and the batch is the first column. */
  function AutoBuyBatch(s: Engine, cfg: Config, es: seq<Entry>, inFirstColumn: bool, now: int): Engine
  {
    if es == [] then s
    else
      var s' := AutoBuyBatch(s, cfg, es[..|es| - 1], inFirstColumn, now);
      var e := es[|es| - 1];
      if e.isNew && cfg.autoBuyEnabled && inFirstColumn then CheckStep(s', cfg, e.keys, e.token, inFirstColumn, now) else s'
  }

  lemma AutoBuyBatchSnoc(s: Engine, cfg: Config, es: seq<Entry>, inFirstColumn: bool, now: int, i: int)
    requires 0 <= i < |es|
    ensures var e := es[i];
      var p := AutoBuyBatch(s, cfg, es[..i], inFirstColumn, now);
      AutoBuyBatch(s, cfg, es[..i + 1], inFirstColumn, now) ==
        if e.isNew && cfg.autoBuyEnabled && inFirstColumn then CheckStep(p, cfg, e.keys, e.token, inFirstColumn, now) else p
  {
    assert es[..i + 1][..i] == es[..i];
  }

  /** A batch keeps the engine invariant and never forgets a purchase. */
  lemma {:induction false} AutoBuyBatchPreserves(s: Engine, cfg: Config, es: seq<Entry>, inFirstColumn: bool, now: int)
    requires EngineInv(s)
    ensures EngineInv(AutoBuyBatch(s, cfg, es, inFirstColumn, now))
    ensures s.purchased <= AutoBuyBatch(s, cfg, es, inFirstColumn, now).purchased
  {
    if es != [] {
      var p := es[..|es| - 1];
      var e := es[|es| - 1];
      AutoBuyBatchPreserves(s, cfg, p, inFirstColumn, now);
      EngineEventsPreserve(AutoBuyBatch(s, cfg, p, inFirstColumn, now), cfg, e.keys, e.token, inFirstColumn, now, "", false);
    }
  }
}
