/**
 * The "first launch" index: for every match key, the comparable token that
 * launched earliest, and the set of keys shared by more than one token
 * (content.js:297-301, 788-843, 252-276, 927-937).
 *
 * The index a scan builds is specified as a left fold of `Step` over the
 * observations the scan makes, one per (comparable entry, key) pair in
 * entry order then key order; the class in sniper.dfy builds it in place
 * and is proved to reach the same state.
 */
module Leaders {
  import opened Wrappers
  import opened Text
  import opened Tokens
  import opened Settings

  // ---------------------------------------------------------------- order

  /** `isEarlierThan`: the greater age launched earlier; on equal ages the
      greater slot index wins. An earlier token is never the younger one,
      and never has the same age and slot. */
  predicate IsEarlierThan(ageA: int, slotA: int, ageB: int, slotB: int): (r: bool)
    ensures r ==> ageA >= ageB
    ensures r ==> (ageA, slotA) != (ageB, slotB)
    ensures ageA > ageB ==> r
    ensures ageA == ageB ==> (r <==> slotA > slotB)
  {
    ageA > ageB || (ageA == ageB && slotA > slotB)
  }

  lemma EarlierIrreflexive(age: int, slot: int)
    ensures !IsEarlierThan(age, slot, age, slot)
  {
  }

  lemma EarlierAsymmetric(ageA: int, slotA: int, ageB: int, slotB: int)
    ensures IsEarlierThan(ageA, slotA, ageB, slotB) ==> !IsEarlierThan(ageB, slotB, ageA, slotA)
  {
  }

  lemma EarlierTransitive(ageA: int, slotA: int, ageB: int, slotB: int, ageC: int, slotC: int)
    ensures IsEarlierThan(ageA, slotA, ageB, slotB) && IsEarlierThan(ageB, slotB, ageC, slotC)
      ==> IsEarlierThan(ageA, slotA, ageC, slotC)
  {
  }

  /** Two distinct (age, slot) pairs are always ordered one way or the other. */
  lemma EarlierTotal(ageA: int, slotA: int, ageB: int, slotB: int)
    ensures (ageA, slotA) != (ageB, slotB) ==>
      IsEarlierThan(ageA, slotA, ageB, slotB) || IsEarlierThan(ageB, slotB, ageA, slotA)
  {
  }

  // ---------------------------------------------------------------- records

  /** What `buildIndex` stores per key. */
  datatype LeaderRecord = LeaderRecord(firstAddr: string, firstAgeMs: int, firstSlotIndex: int, firstChain: string)

  /** The age of a comparable entry (comparable entries always have one). */
  function AgeOf(e: Entry): int
  {
    if e.token.ageMs.Some? then e.token.ageMs.value else 0
  }

  function RecordOf(e: Entry): LeaderRecord
  {
    LeaderRecord(e.addrKey, AgeOf(e), e.token.slotIndex, e.token.chain)
  }

  predicate RecordEarlier(a: LeaderRecord, b: LeaderRecord)
  {
    IsEarlierThan(a.firstAgeMs, a.firstSlotIndex, b.firstAgeMs, b.firstSlotIndex)
  }

  /** One visit of the inner loop of `computeFirstIndex`: key `key` seen on
      the token whose record would be `rec`. */
  datatype Observation = Observation(key: string, rec: LeaderRecord)

  /** The observations one entry contributes: none unless comparable. */
  function EntryObservations(e: Entry): (r: seq<Observation>)
    ensures |r| == (if e.canCompare then |e.keys| else 0)
    ensures forall j :: 0 <= j < |r| ==> r[j] == Observation(e.keys[j], RecordOf(e))
  {
    if e.canCompare then seq(|e.keys|, j requires 0 <= j < |e.keys| => Observation(e.keys[j], RecordOf(e)))
    else []
  }

  /** All observations of a scan over `es`, in loop order. */
  function Observations(es: seq<Entry>): seq<Observation>
  {
    if es == [] then [] else Observations(es[..|es| - 1]) + EntryObservations(es[|es| - 1])
  }

  // ---------------------------------------------------------------- the fold

  datatype IndexState = IndexState(index: map<string, LeaderRecord>, dupKeys: set<string>)

  const Cleared := IndexState(map[], {})

  /** The leader map after one observation (content.js:802-809): the
      observed record replaces the leader when there is none or when it is
      earlier; on an exact tie the leader seen first stays. No other key
      changes. */
  function StepIndex(index: map<string, LeaderRecord>, o: Observation): (r: map<string, LeaderRecord>)
    ensures o.key in r
    ensures r[o.key] == o.rec || (o.key in index && r[o.key] == index[o.key])
    ensures !RecordEarlier(o.rec, r[o.key])
    ensures o.key in index ==> !RecordEarlier(index[o.key], r[o.key])
    ensures o.key in index && !RecordEarlier(o.rec, index[o.key]) ==> r[o.key] == index[o.key]
    ensures forall k :: k != o.key ==> (k in r <==> k in index) && (k in r ==> r[k] == index[k])
  {
    if o.key !in index || RecordEarlier(o.rec, index[o.key]) then index[o.key := o.rec] else index
  }

  /** The duplicate set after one observation (content.js:798-800): a key
      becomes a duplicate exactly when its current leader has another
      address. */
  function StepDup(s: IndexState, o: Observation): (r: set<string>)
    ensures s.dupKeys <= r <= s.dupKeys + {o.key}
    ensures o.key in r && o.key !in s.dupKeys ==> o.key in s.index && s.index[o.key].firstAddr != o.rec.firstAddr
    ensures o.key in s.index && s.index[o.key].firstAddr != o.rec.firstAddr ==> o.key in r
  {
    if o.key in s.index && s.index[o.key].firstAddr != o.rec.firstAddr then s.dupKeys + {o.key} else s.dupKeys
  }

  function Step(s: IndexState, o: Observation): IndexState
  {
    IndexState(StepIndex(s.index, o), StepDup(s, o))
  }

  function Replay(obs: seq<Observation>): IndexState
  {
    if obs == [] then Cleared else Step(Replay(obs[..|obs| - 1]), obs[|obs| - 1])
  }

  /** The state `computeFirstIndex(es)` leaves in `buildIndex`/`buildDupKeys`. */
  function BuildIndexOf(es: seq<Entry>): IndexState
  {
    Replay(Observations(es))
  }

  /** A key only becomes a duplicate once it is indexed. */
  lemma {:induction false} ReplayDupIndexed(obs: seq<Observation>)
    ensures Replay(obs).dupKeys <= Replay(obs).index.Keys
  {
    if obs != [] {
      ReplayDupIndexed(obs[..|obs| - 1]);
    }
  }

  /** One observation of entry `e`'s key `k`, as the loop body of
      `computeFirstIndex` tests it. */
  lemma StepOf(s: IndexState, e: Entry, k: string)
    ensures Step(s, Observation(k, RecordOf(e))) == IndexState(
      if k !in s.index || IsEarlierThan(AgeOf(e), e.token.slotIndex, s.index[k].firstAgeMs, s.index[k].firstSlotIndex)
      then s.index[k := LeaderRecord(e.addrKey, AgeOf(e), e.token.slotIndex, e.token.chain)] else s.index,
      if k in s.index && s.index[k].firstAddr != e.addrKey then s.dupKeys + {k} else s.dupKeys)
  {
  }

  lemma ReplaySnoc(obs: seq<Observation>, o: Observation)
    ensures Replay(obs + [o]) == Step(Replay(obs), o)
  {
    assert (obs + [o])[..|obs + [o]| - 1] == obs;
  }

  /** One more key of entry `e` folded into the replay. */
  lemma ReplayEntryStep(done: seq<Observation>, e: Entry, j: int)
    requires e.canCompare && 0 <= j < |e.keys|
    ensures Replay(done + EntryObservations(e)[..j + 1]) == Step(Replay(done + EntryObservations(e)[..j]), Observation(e.keys[j], RecordOf(e)))
  {
    var o := Observation(e.keys[j], RecordOf(e));
    assert EntryObservations(e)[..j + 1] == EntryObservations(e)[..j] + [o];
    assert done + EntryObservations(e)[..j + 1] == (done + EntryObservations(e)[..j]) + [o];
    ReplaySnoc(done + EntryObservations(e)[..j], o);
  }

  /** One more entry of the scan: its observations follow the earlier ones. */
  lemma ObservationsStep(es: seq<Entry>, i: int)
    requires 0 <= i < |es|
    ensures Observations(es[..i + 1]) == Observations(es[..i]) + EntryObservations(es[i])
    ensures !es[i].canCompare ==> Observations(es[..i + 1]) == Observations(es[..i])
  {
    assert es[..i + 1][..i] == es[..i];
    assert Observations(es[..i]) + [] == Observations(es[..i]);
  }

  // ---------------------------------------------------------------- fold properties

  /** Every leader is one of the observations of its key, and no observation
      of that key is earlier. */
  lemma {:induction false} ReplayLeaders(obs: seq<Observation>)
    ensures forall k :: k in Replay(obs).index ==> Observation(k, Replay(obs).index[k]) in obs
    ensures forall o :: o in obs ==> o.key in Replay(obs).index && !RecordEarlier(o.rec, Replay(obs).index[o.key])
  {
    if obs != [] {
      var p := obs[..|obs| - 1];
      var o := obs[|obs| - 1];
      ReplayLeaders(p);
      assert obs == p + [o];
      var s := Replay(p);
      var t := Replay(obs);
      forall o' | o' in obs
        ensures o'.key in t.index && !RecordEarlier(o'.rec, t.index[o'.key])
      {
        if o'.key == o.key && o'.key in s.index && t.index[o.key] != s.index[o.key] {
          if o' in p {
            var r := s.index[o.key];
            EarlierTransitive(o'.rec.firstAgeMs, o'.rec.firstSlotIndex, o.rec.firstAgeMs,
              o.rec.firstSlotIndex, r.firstAgeMs, r.firstSlotIndex);
          } else {
            EarlierIrreflexive(o.rec.firstAgeMs, o.rec.firstSlotIndex);
          }
        }
      }
    }
  }

  /** Two observations of `k`, the earlier one first, with different addresses. */
  predicate DupWitness(obs: seq<Observation>, k: string)
  {
    exists i, j :: 0 <= i < j < |obs| && obs[i].key == k && obs[j].key == k && obs[i].rec.firstAddr != obs[j].rec.firstAddr
  }

  /** Every observation of `k` carries the address `addr`. */
  predicate SameAddr(obs: seq<Observation>, k: string, addr: string)
  {
    forall i :: 0 <= i < |obs| && obs[i].key == k ==> obs[i].rec.firstAddr == addr
  }

  /** A key is a duplicate exactly when two observations of it carry
      different addresses; a key that is not a duplicate was only ever seen
      with its leader's address. */
  lemma {:induction false} ReplayDupKeys(obs: seq<Observation>)
    ensures forall k :: k in Replay(obs).dupKeys <==> DupWitness(obs, k)
    ensures forall k :: k in Replay(obs).index && k !in Replay(obs).dupKeys ==>
      SameAddr(obs, k, Replay(obs).index[k].firstAddr)
  {
    if obs != [] {
      var p := obs[..|obs| - 1];
      var o := obs[|obs| - 1];
      assert obs == p + [o];
      ReplayDupKeys(p);
      ReplayLeaders(p);
      ReplaySnoc(p, o);
      forall i | 0 <= i < |p| ensures p[i].key in Replay(p).index {
        assert p[i] in p;
      }
      forall k
        ensures k in Replay(obs).dupKeys <==> DupWitness(obs, k)
        ensures k in Replay(obs).index && k !in Replay(obs).dupKeys ==>
          SameAddr(obs, k, Replay(obs).index[k].firstAddr)
      {
        DupStep(Replay(p), p, o, k);
      }
    }
  }

  /** The induction step of `ReplayDupKeys` for one key, `s` being the state
      after the observations `p`. */
  lemma DupStep(s: IndexState, p: seq<Observation>, o: Observation, k: string)
    requires k in s.dupKeys <==> DupWitness(p, k)
    requires k in s.index && k !in s.dupKeys ==> SameAddr(p, k, s.index[k].firstAddr)
    requires k in s.index ==> Observation(k, s.index[k]) in p
    requires k !in s.index ==> forall i :: 0 <= i < |p| ==> p[i].key != k
    ensures k in Step(s, o).dupKeys <==> DupWitness(p + [o], k)
    ensures k in Step(s, o).index && k !in Step(s, o).dupKeys ==>
      SameAddr(p + [o], k, Step(s, o).index[k].firstAddr)
  {
    var obs := p + [o];
    assert forall i :: 0 <= i < |p| ==> obs[i] == p[i];
    assert obs[|p|] == o;
    if DupWitness(p, k) {
      var i, j :| 0 <= i < j < |p| && p[i].key == k && p[j].key == k && p[i].rec.firstAddr != p[j].rec.firstAddr;
      assert obs[i] == p[i] && obs[j] == p[j];
    }
    if k != o.key {
      if DupWitness(obs, k) {
        var i, j :| 0 <= i < j < |obs| && obs[i].key == k && obs[j].key == k && obs[i].rec.firstAddr != obs[j].rec.firstAddr;
        assert j != |p|;
        assert p[i] == obs[i] && p[j] == obs[j];
      }
    } else if k !in s.index {
      assert !DupWitness(obs, k);
    } else if s.index[k].firstAddr != o.rec.firstAddr {
      var i :| 0 <= i < |p| && p[i] == Observation(k, s.index[k]);
      assert obs[i].key == k && obs[|p|].key == k && obs[i].rec.firstAddr != obs[|p|].rec.firstAddr;
    } else if k !in s.dupKeys {
      assert SameAddr(obs, k, s.index[k].firstAddr);
      assert !DupWitness(obs, k);
    }
  }

  /** The observations of a scan are exactly the (key, record) pairs of its
      comparable entries. */
  lemma {:induction false} ObservationsMembers(es: seq<Entry>)
    ensures forall o :: o in Observations(es) <==>
      exists e :: e in es && e.canCompare && o.key in e.keys && o.rec == RecordOf(e)
  {
    if es != [] {
      var p := es[..|es| - 1];
      var e := es[|es| - 1];
      ObservationsMembers(p);
      assert es == p + [e];
      forall o | o in EntryObservations(e) ensures e.canCompare && o.key in e.keys && o.rec == RecordOf(e) {
        var j :| 0 <= j < |EntryObservations(e)| && EntryObservations(e)[j] == o;
      }
      forall o: Observation | e.canCompare && o.key in e.keys && o.rec == RecordOf(e) ensures o in EntryObservations(e) {
        var j :| 0 <= j < |e.keys| && e.keys[j] == o.key;
        assert EntryObservations(e)[j] == o;
      }
    }
  }

  /** The observation position `i` belongs to some comparable entry. */
  lemma ObservationOwner(es: seq<Entry>, i: int) returns (e: Entry)
    requires 0 <= i < |Observations(es)|
    ensures e in es && e.canCompare
    ensures Observations(es)[i].key in e.keys && Observations(es)[i].rec == RecordOf(e)
  {
    ObservationsMembers(es);
    assert Observations(es)[i] in Observations(es);
    e :| e in es && e.canCompare && Observations(es)[i].key in e.keys && Observations(es)[i].rec == RecordOf(e);
  }

  /** Index positions of two different entries' observations. */
  lemma {:induction false} ObservationsOrdered(es: seq<Entry>, a: int, b: int, k: string)
    returns (i: int, j: int)
    requires 0 <= a < |es| && 0 <= b < |es| && a != b
    requires es[a].canCompare && es[b].canCompare && k in es[a].keys && k in es[b].keys
    ensures 0 <= i < |Observations(es)| && 0 <= j < |Observations(es)| && i != j
    ensures Observations(es)[i] == Observation(k, RecordOf(es[a]))
    ensures Observations(es)[j] == Observation(k, RecordOf(es[b]))
  {
    var p := es[..|es| - 1];
    var e := es[|es| - 1];
    var op := Observations(p);
    assert Observations(es) == op + EntryObservations(e);
    var ka :| 0 <= ka < |es[a].keys| && es[a].keys[ka] == k;
    var kb :| 0 <= kb < |es[b].keys| && es[b].keys[kb] == k;
    if a == |es| - 1 {
      assert p[b] == es[b];
      var j0 := ObservationOf(p, b, k);
      i, j := |op| + ka, j0;
    } else if b == |es| - 1 {
      assert p[a] == es[a];
      var i0 := ObservationOf(p, a, k);
      i, j := i0, |op| + kb;
    } else {
      assert p[a] == es[a] && p[b] == es[b];
      i, j := ObservationsOrdered(p, a, b, k);
    }
  }

  /** The position of one entry's observation of `k`. */
  lemma {:induction false} ObservationOf(es: seq<Entry>, a: int, k: string) returns (i: int)
    requires 0 <= a < |es| && es[a].canCompare && k in es[a].keys
    ensures 0 <= i < |Observations(es)|
    ensures Observations(es)[i] == Observation(k, RecordOf(es[a]))
  {
    var p := es[..|es| - 1];
    var e := es[|es| - 1];
    if a == |es| - 1 {
      var ka :| 0 <= ka < |e.keys| && e.keys[ka] == k;
      i := |Observations(p)| + ka;
    } else {
      assert p[a] == es[a];
      i := ObservationOf(p, a, k);
    }
  }

  // ---------------------------------------------------------------- index properties

  /** After `computeFirstIndex(es)`: every key's leader is a comparable entry
      carrying that key, and no comparable entry carrying it is earlier;
      every key of a comparable entry is indexed. */
  lemma BuildIndexLeaders(es: seq<Entry>)
    ensures forall k :: k in BuildIndexOf(es).index ==>
      exists e :: e in es && e.canCompare && k in e.keys && BuildIndexOf(es).index[k] == RecordOf(e)
    ensures forall e, k :: e in es && e.canCompare && k in e.keys ==>
      k in BuildIndexOf(es).index && !RecordEarlier(RecordOf(e), BuildIndexOf(es).index[k])
  {
    var obs := Observations(es);
    var idx := Replay(obs).index;
    ReplayLeaders(obs);
    ObservationsMembers(es);
    forall k | k in idx
      ensures exists e :: e in es && e.canCompare && k in e.keys && idx[k] == RecordOf(e)
    {
      assert Observation(k, idx[k]) in obs;
    }
    forall e, k | e in es && e.canCompare && k in e.keys
      ensures k in idx && !RecordEarlier(RecordOf(e), idx[k])
    {
      assert Observation(k, RecordOf(e)) in obs;
    }
  }

  /** The observations of two lists one after the other. */
  lemma {:induction false} ObservationsAppend(a: seq<Entry>, b: seq<Entry>)
    ensures Observations(a + b) == Observations(a) + Observations(b)
    decreases |b|
  {
    if b == [] {
      assert a + b == a;
    } else {
      var p, e := b[..|b| - 1], b[|b| - 1];
      assert b == p + [e];
      assert a + b == (a + p) + [e];
      ObservationsAppend(a, p);
      ObservationsSnocSplit(a + p, Observations(a), Observations(p), e);
      ObservationsSnoc(p, e);
    }
  }

  /** Appending one entry to a prefix whose observations split in two. */
  lemma ObservationsSnocSplit(x: seq<Entry>, oa: seq<Observation>, op: seq<Observation>, e: Entry)
    requires Observations(x) == oa + op
    ensures Observations(x + [e]) == oa + (op + EntryObservations(e))
  {
    ObservationsSnoc(x, e);
  }

  lemma ObservationsSnoc(es: seq<Entry>, e: Entry)
    ensures Observations(es + [e]) == Observations(es) + EntryObservations(e)
  {
    assert (es + [e])[..|es|] == es;
  }

  /** Non-comparable entries contribute nothing, wherever they stand: the
      index of a list is the index of its comparable entries alone. */
  lemma IndexIgnoresNonComparable(es1: seq<Entry>, e: Entry, es2: seq<Entry>)
    requires !e.canCompare
    ensures BuildIndexOf(es1 + [e] + es2) == BuildIndexOf(es1 + es2)
  {
    ObservationsAppend(es1 + [e], es2);
    ObservationsAppend(es1, [e]);
    ObservationsAppend(es1, es2);
    assert Observations([e]) == Observations([]) + EntryObservations(e);
    assert Observations(es1) + [] == Observations(es1);
  }

  /** `buildDupKeys` holds a key exactly when two comparable entries with
      different identities carry it. */
  lemma BuildDupKeysIff(es: seq<Entry>, k: string)
    ensures k in BuildIndexOf(es).dupKeys <==>
      exists a, b :: 0 <= a < |es| && 0 <= b < |es| && es[a].canCompare && es[b].canCompare &&
        k in es[a].keys && k in es[b].keys && es[a].addrKey != es[b].addrKey
  {
    var obs := Observations(es);
    ReplayDupKeys(obs);
    if k in BuildIndexOf(es).dupKeys {
      var i, j :| 0 <= i < j < |obs| && obs[i].key == k && obs[j].key == k && obs[i].rec.firstAddr != obs[j].rec.firstAddr;
      var ei := ObservationOwner(es, i);
      var ej := ObservationOwner(es, j);
      var a :| 0 <= a < |es| && es[a] == ei;
      var b :| 0 <= b < |es| && es[b] == ej;
      assert es[a].addrKey != es[b].addrKey;
    }
    if exists a, b :: 0 <= a < |es| && 0 <= b < |es| && es[a].canCompare && es[b].canCompare &&
        k in es[a].keys && k in es[b].keys && es[a].addrKey != es[b].addrKey {
      var a, b :| 0 <= a < |es| && 0 <= b < |es| && es[a].canCompare && es[b].canCompare &&
        k in es[a].keys && k in es[b].keys && es[a].addrKey != es[b].addrKey;
      var i, j := ObservationsOrdered(es, a, b, k);
      if i < j {
        assert obs[i].key == k && obs[j].key == k && obs[i].rec.firstAddr != obs[j].rec.firstAddr;
      } else {
        assert obs[j].key == k && obs[i].key == k && obs[j].rec.firstAddr != obs[i].rec.firstAddr;
      }
    }
  }

  // ---------------------------------------------------------------- queries

  /** `isTokenFirstInIndex`: no key of the token is led by another identity. */
  function IsTokenFirstInIndex(addrKey: string, keys: seq<string>, index: map<string, LeaderRecord>): (r: bool)
    ensures r <==> forall i :: 0 <= i < |keys| && keys[i] in index ==> index[keys[i]].firstAddr == addrKey
  {
    if keys == [] then true
    else if keys[0] in index && index[keys[0]].firstAddr != addrKey then false
    else IsTokenFirstInIndex(addrKey, keys[1..], index)
  }

  /** The first indexed key's record, in key order. */
  function FirstIndexed(keys: seq<string>, index: map<string, LeaderRecord>): (r: Option<LeaderRecord>)
    ensures r.None? <==> forall i :: 0 <= i < |keys| ==> keys[i] !in index
    ensures r.Some? ==> exists i :: 0 <= i < |keys| && keys[i] in index && r.value == index[keys[i]] &&
                                    forall j :: 0 <= j < i ==> keys[j] !in index
  {
    if keys == [] then None
    else if keys[0] in index then Some(index[keys[0]])
    else
      var r := FirstIndexed(keys[1..], index);
      if r.Some? then
        var i :| 0 <= i < |keys[1..]| && keys[1..][i] in index && r.value == index[keys[1..][i]] &&
                 forall j :: 0 <= j < i ==> keys[1..][j] !in index;
        assert keys[i + 1] in index && r.value == index[keys[i + 1]];
        r
      else r
  }

  /** The first indexed key is the one before which no key is indexed. */
  lemma FirstIndexedAt(keys: seq<string>, index: map<string, LeaderRecord>, i: int)
    requires 0 <= i < |keys| && keys[i] in index
    requires forall j :: 0 <= j < i ==> keys[j] !in index
    ensures FirstIndexed(keys, index) == Some(index[keys[i]])
  {
  }

  /** `rec.firstAddr.split(":")[1]`: the text between the first and the
      second colon; `undefined` (here `None`) when there is no colon. */
  function AddressPart(firstAddr: string): (r: Option<string>)
    ensures r.None? <==> ':' !in firstAddr
  {
    var n := SpanWithout(firstAddr, {':'});
    if n == |firstAddr| then
      assert forall i :: 0 <= i < |firstAddr| ==> firstAddr[i] != ':';
      None
    else
      var rest := firstAddr[n + 1..];
      Some(rest[..SpanWithout(rest, {':'})])
  }

  /** An identity built from a colon-free chain and address yields back the
      address. */
  lemma AddressPartOfAddrKey(chain: string, address: string)
    requires ':' !in chain && ':' !in address
    ensures AddressPart(AddrKey(chain, address)) == Some(address)
  {
    SpanStopsAt(chain, ":" + address, {':'});
    assert AddrKey(chain, address) == chain + (":" + address);
    assert AddrKey(chain, address)[|chain| + 1..] == address;
    SpanStopsAt(address, [], {':'});
    assert address + [] == address;
  }

  /** An address with a colon is cut at its first colon. */
  lemma AddressPartTruncates(chain: string, head: string, tail: string)
    requires ':' !in chain && ':' !in head
    ensures AddressPart(AddrKey(chain, head + ":" + tail)) == Some(head)
  {
    var address := head + ":" + tail;
    assert AddrKey(chain, address) == chain + (":" + address);
    SpanStopsAt(chain, ":" + address, {':'});
    assert AddrKey(chain, address)[|chain| + 1..] == head + (":" + tail);
    SpanStopsAt(head, ":" + tail, {':'});
    assert (head + (":" + tail))[..|head|] == head;
  }

  /** The object `getFirstTokenInfo` returns. */
  datatype TokenInfo = TokenInfo(chain: string, address: Option<string>, ageMs: int)

  function InfoOf(rec: LeaderRecord): TokenInfo
  {
    TokenInfo(rec.firstChain, AddressPart(rec.firstAddr), rec.firstAgeMs)
  }

  /** `getFirstTokenInfo`: the published index is searched first, then the
      one being built. */
  function GetFirstTokenInfo(keys: seq<string>, renderIndex: map<string, LeaderRecord>, buildIndex: map<string, LeaderRecord>): (r: Option<TokenInfo>)
    ensures r.None? <==> forall i :: 0 <= i < |keys| ==> keys[i] !in renderIndex && keys[i] !in buildIndex
    ensures (exists i :: 0 <= i < |keys| && keys[i] in renderIndex) ==>
      r == Some(InfoOf(FirstIndexed(keys, renderIndex).value))
    ensures (forall i :: 0 <= i < |keys| ==> keys[i] !in renderIndex) ==>
      r == (if FirstIndexed(keys, buildIndex).Some? then Some(InfoOf(FirstIndexed(keys, buildIndex).value)) else None)
  {
    match FirstIndexed(keys, renderIndex)
    case Some(rec) => Some(InfoOf(rec))
    case None =>
      match FirstIndexed(keys, buildIndex)
      case Some(rec) => Some(InfoOf(rec))
      case None => None
  }

  /** `shouldHideSlot` with the duplicate set it reads passed in. */
  function ShouldHideSlot(mode: ShowMode, dupKeys: set<string>, isFirst: bool, keys: seq<string>): (r: bool)
    ensures mode.ShowAll? || mode.OtherShowMode? ==> !r
    ensures mode.OnlyFirst? ==> (r <==> !isFirst)
    ensures mode.OnlyDup? ==> (r <==> isFirst)
    ensures mode.HideNonSameNameFirst? ==> (r <==> forall i :: 0 <= i < |keys| ==> keys[i] !in dupKeys)
  {
    var inDupGroup := exists i :: 0 <= i < |keys| && keys[i] in dupKeys;
    match mode
    case ShowAll => false
    case OnlyFirst => !isFirst
    case OnlyDup => isFirst
    case HideNonSameNameFirst => !inDupGroup
    case OtherShowMode => false
  }
}
