/**
 * The state lock (content.js:736-760, 845-925): each token's last
 * classification is held for two seconds, and a reclassification from
 * "first" to "duplicate" inside that time is only accepted when another
 * identity leads one of its keys.
 */
module Locks {
  import opened Wrappers
  import opened Tokens
  import opened Leaders

  const StateLockDuration: int := 2000

  /** A `confirmedStates` entry. */
  datatype LockedState = LockedState(isFirst: bool, confirmedAt: int, keys: seq<string>)

  /** `getLockedState`: the lock on `addrKey`, if it is younger than the
      lock duration. */
  function GetLockedState(states: map<string, LockedState>, addrKey: string, now: int): (r: Option<LockedState>)
    ensures r.Some? ==> addrKey in states && r.value == states[addrKey]
    ensures r.Some? <==> addrKey in states && now - states[addrKey].confirmedAt < StateLockDuration
  {
    if addrKey !in states then None
    else if now - states[addrKey].confirmedAt >= StateLockDuration then None
    else Some(states[addrKey])
  }

  /** Once a lock has expired it stays expired. */
  lemma LockExpiresForGood(states: map<string, LockedState>, addrKey: string, now: int, later: int)
    requires now <= later
    ensures GetLockedState(states, addrKey, now).None? ==> GetLockedState(states, addrKey, later).None?
  {
  }

  /** `lockState`: a fresh lock stamped `now`. */
  function LockState(states: map<string, LockedState>, addrKey: string, isFirst: bool, keys: seq<string>, now: int): (r: map<string, LockedState>)
    ensures r.Keys == states.Keys + {addrKey}
    ensures r[addrKey] == LockedState(isFirst, now, keys)
    ensures forall a :: a in states && a != addrKey ==> r[a] == states[a]
  {
    states[addrKey := LockedState(isFirst, now, keys)]
  }

  /** A lock just taken is live for exactly the lock duration and holds what
      was locked; no other identity's lock changes. */
  lemma LockStateLive(states: map<string, LockedState>, addrKey: string, isFirst: bool, keys: seq<string>, now: int, later: int, other: string)
    requires other != addrKey
    ensures GetLockedState(LockState(states, addrKey, isFirst, keys, now), addrKey, later) ==
      (if later - now < StateLockDuration then Some(LockedState(isFirst, now, keys)) else None)
    ensures GetLockedState(LockState(states, addrKey, isFirst, keys, now), other, later) == GetLockedState(states, other, later)
  {
  }

  /** `cleanExpiredStates`: the locks younger than twice the lock duration. */
  function CleanExpired(states: map<string, LockedState>, now: int): (r: map<string, LockedState>)
    ensures forall a :: a in r <==> a in states && now - states[a].confirmedAt < 2 * StateLockDuration
    ensures forall a :: a in r ==> r[a] == states[a]
  {
    map a | a in states && now - states[a].confirmedAt < 2 * StateLockDuration :: states[a]
  }

  /** Cleaning is unobservable: at any later time every identity's live lock
      is the same with or without it. */
  lemma CleanExpiredUnobservable(states: map<string, LockedState>, now: int, later: int, addrKey: string)
    requires now <= later
    ensures GetLockedState(CleanExpired(states, now), addrKey, later) == GetLockedState(states, addrKey, later)
  {
  }

  /** The inner loop of `validateStateChange` (content.js:853-858): some key
      of the token is led by another identity. */
  function OtherLeads(addrKey: string, keys: seq<string>, index: map<string, LeaderRecord>): (r: bool)
    ensures r <==> exists i :: 0 <= i < |keys| && keys[i] in index && index[keys[i]].firstAddr != addrKey
  {
    if keys == [] then false
    else if keys[0] in index && index[keys[0]].firstAddr != addrKey then
      assert keys[0] == keys[0];
      true
    else
      var r := OtherLeads(addrKey, keys[1..], index);
      assert r ==> exists i :: 1 <= i < |keys| && keys[i] == keys[1..][i - 1] && keys[i] in index && index[keys[i]].firstAddr != addrKey;
      r
  }

  /** `validateStateChange`: without a live lock, and for a change to
      "first", every change is accepted. */
  function ValidateStateChange(states: map<string, LockedState>, index: map<string, LeaderRecord>, addrKey: string, keys: seq<string>, newIsFirst: bool, now: int): (r: bool)
    ensures GetLockedState(states, addrKey, now).None? ==> r
    ensures newIsFirst ==> r
    ensures OtherLeads(addrKey, keys, index) ==> r
  {
    match GetLockedState(states, addrKey, now)
    case None => true
    case Some(locked) =>
      if locked.isFirst == newIsFirst then true
      else if locked.isFirst && !newIsFirst then OtherLeads(addrKey, keys, index)
      else true
  }

  /** A change is refused exactly when a live lock says "first", the new
      value says "duplicate", and no key of the token is led by another
      identity. */
  lemma ValidateRefusesOnly(states: map<string, LockedState>, index: map<string, LeaderRecord>, addrKey: string, keys: seq<string>, newIsFirst: bool, now: int)
    ensures !ValidateStateChange(states, index, addrKey, keys, newIsFirst, now) <==>
      addrKey in states && now - states[addrKey].confirmedAt < StateLockDuration &&
      states[addrKey].isFirst && !newIsFirst &&
      forall i :: 0 <= i < |keys| && keys[i] in index ==> index[keys[i]].firstAddr == addrKey
  {
  }

  /** The loop of `validateStateChange` is the negation of
      `isTokenFirstInIndex` on the same index. */
  lemma OtherLeadsIffNotFirst(addrKey: string, keys: seq<string>, index: map<string, LeaderRecord>)
    ensures OtherLeads(addrKey, keys, index) <==> !IsTokenFirstInIndex(addrKey, keys, index)
  {
  }

  // ---------------------------------------------------------------- classification

  /** The classification `applyMarkersWithLock` computes (content.js:872-875). */
  function ComputedIsFirst(e: Entry, index: map<string, LeaderRecord>): bool
  {
    if e.canCompare then IsTokenFirstInIndex(e.addrKey, e.keys, index) else true
  }

  /** One element of `stateChanges`, without its DOM nodes. */
  datatype StateChange = StateChange(addrKey: string, keys: seq<string>, isFirst: bool, isNew: bool)

  /** The first loop of `applyMarkersWithLock` for one token
      (content.js:869-901), with the retained-lock branch of line 895. */
  function DecideState(e: Entry, index: map<string, LeaderRecord>, states: map<string, LockedState>, now: int): (r: StateChange)
    ensures r.addrKey == e.addrKey && r.isNew == e.isNew
    ensures e.isNew || GetLockedState(states, e.addrKey, now).None? ==>
      r == StateChange(e.addrKey, e.keys, ComputedIsFirst(e, index), e.isNew)
  {
    var isFirst := ComputedIsFirst(e, index);
    if e.isNew then StateChange(e.addrKey, e.keys, isFirst, true)
    else
      match GetLockedState(states, e.addrKey, now)
      case None => StateChange(e.addrKey, e.keys, isFirst, false)
      case Some(locked) =>
        if locked.isFirst == isFirst then StateChange(e.addrKey, e.keys, isFirst, false)
        else if ValidateStateChange(states, index, e.addrKey, e.keys, isFirst, now) then
          StateChange(e.addrKey, e.keys, isFirst, false)
        else StateChange(e.addrKey, locked.keys, locked.isFirst, false)
  }

  /** The computed classification always passes validation, whatever the
      locks and whichever clock reading validation makes: a "duplicate"
      comes from a key led by another identity in the very index that
      validation consults. */
  lemma ValidateAcceptsComputed(e: Entry, index: map<string, LeaderRecord>, states: map<string, LockedState>, now: int)
    ensures ValidateStateChange(states, index, e.addrKey, e.keys, ComputedIsFirst(e, index), now)
  {
    OtherLeadsIffNotFirst(e.addrKey, e.keys, index);
  }

  /** The lock never overrides: the retained-lock branch is unreachable and
      every token's final classification and keys are the computed ones. */
  lemma LockNeverOverrides(e: Entry, index: map<string, LeaderRecord>, states: map<string, LockedState>, now: int)
    ensures DecideState(e, index, states, now) == StateChange(e.addrKey, e.keys, ComputedIsFirst(e, index), e.isNew)
  {
    ValidateAcceptsComputed(e, index, states, now);
  }

  /** Every token's decision, in batch order. */
  function Decisions(es: seq<Entry>, index: map<string, LeaderRecord>, states: map<string, LockedState>, now: int): (r: seq<StateChange>)
    ensures |r| == |es|
    ensures forall i :: 0 <= i < |es| ==> r[i] == DecideState(es[i], index, states, now)
  {
    seq(|es|, i requires 0 <= i < |es| => DecideState(es[i], index, states, now))
  }

  /** The second loop of `applyMarkersWithLock` relocks every change in turn
      (content.js:903-921). */
  function Relock(states: map<string, LockedState>, cs: seq<StateChange>, now: int): map<string, LockedState>
  {
    if cs == [] then states
    else
      var c := cs[|cs| - 1];
      LockState(Relock(states, cs[..|cs| - 1], now), c.addrKey, c.isFirst, c.keys, now)
  }

  /** After relocking, an identity's lock is the one of its last change. */
  lemma {:induction false} RelockLast(states: map<string, LockedState>, cs: seq<StateChange>, now: int, i: int)
    requires 0 <= i < |cs|
    requires forall j :: i < j < |cs| ==> cs[j].addrKey != cs[i].addrKey
    ensures cs[i].addrKey in Relock(states, cs, now)
    ensures Relock(states, cs, now)[cs[i].addrKey] == LockedState(cs[i].isFirst, now, cs[i].keys)
  {
    if i < |cs| - 1 {
      var p := cs[..|cs| - 1];
      assert p[i] == cs[i];
      assert forall j :: i < j < |p| ==> p[j] == cs[j];
      RelockLast(states, p, now, i);
    }
  }

  /** After relocking, every changed identity holds a lock stamped `now`. */
  lemma RelockFresh(states: map<string, LockedState>, cs: seq<StateChange>, now: int, i: int)
    requires 0 <= i < |cs|
    ensures cs[i].addrKey in Relock(states, cs, now) && Relock(states, cs, now)[cs[i].addrKey].confirmedAt == now
  {
    var a := cs[i].addrKey;
    var last :| i <= last < |cs| && cs[last].addrKey == a && forall j :: last < j < |cs| ==> cs[j].addrKey != a by {
      LastOccurrence(cs, i);
    }
    RelockLast(states, cs, now, last);
  }

  lemma {:induction false} LastOccurrence(cs: seq<StateChange>, i: int)
    requires 0 <= i < |cs|
    ensures exists last :: i <= last < |cs| && cs[last].addrKey == cs[i].addrKey &&
                           forall j :: last < j < |cs| ==> cs[j].addrKey != cs[i].addrKey
    decreases |cs| - i
  {
    if exists j :: i < j < |cs| && cs[j].addrKey == cs[i].addrKey {
      var j :| i < j < |cs| && cs[j].addrKey == cs[i].addrKey;
      LastOccurrence(cs, j);
    } else {
      assert cs[i].addrKey == cs[i].addrKey;
    }
  }

  /** Relocking leaves every identity outside the changes as it was. */
  lemma {:induction false} RelockUntouched(states: map<string, LockedState>, cs: seq<StateChange>, now: int, a: string)
    requires forall i :: 0 <= i < |cs| ==> cs[i].addrKey != a
    ensures a in Relock(states, cs, now) <==> a in states
    ensures a in states ==> Relock(states, cs, now)[a] == states[a]
  {
    if cs != [] {
      var p := cs[..|cs| - 1];
      assert forall i :: 0 <= i < |p| ==> p[i] == cs[i];
      RelockUntouched(states, p, now, a);
      assert cs[|cs| - 1].addrKey != a;
    }
  }

  /** After `applyMarkersWithLock(es)`: every token of the batch holds a
      fresh lock, and when it occurs once in the batch that lock holds its
      computed classification and its own keys. */
  lemma ApplyLocksComputed(states: map<string, LockedState>, es: seq<Entry>, index: map<string, LeaderRecord>, now: int, i: int)
    requires 0 <= i < |es|
    requires forall j :: 0 <= j < |es| && j != i ==> es[j].addrKey != es[i].addrKey
    ensures var after := Relock(states, Decisions(es, index, states, now), now);
      es[i].addrKey in after && after[es[i].addrKey] == LockedState(ComputedIsFirst(es[i], index), now, es[i].keys)
  {
    var cs := Decisions(es, index, states, now);
    RelockLast(states, cs, now, i);
    LockNeverOverrides(es[i], index, states, now);
  }
}
