/**
 * Tokens as the row extraction yields them, and the per-row rule of
 * `collectTokens` (content.js:764-786): rows without a key are dropped, and
 * a row is comparable when it has an age inside the configured window.
 */
module Tokens {
  import opened Wrappers
  import opened Parsing
  import opened Keys
  import opened Settings

  /** The record `extractTokenFromRow` returns (content.js:207-214). */
  datatype Token = Token(chain: string, address: string, symbol: string, name: string, ageMs: Option<nat>, slotIndex: int)

  /** One element of the list `collectTokens` returns, without its DOM nodes. */
  datatype Entry = Entry(token: Token, addrKey: string, keys: seq<string>, canCompare: bool, isNew: bool)

  /** The identity `${chain}:${address}`. */
  function AddrKey(chain: string, address: string): string
  {
    chain + ":" + address
  }

  /** The non-DOM part of `extractTokenFromRow` (content.js:191-215): the
      link, age text, symbol, name and slot index are what the row shows
      (a missing age text is the empty string). */
  function TokenFromRow(href: string, ageText: string, symbol: string, name: string, slotIndex: int): (r: Option<Token>)
    ensures r.Some? <==> ParseTokenHref(href).Some?
    ensures r.Some? ==> TokenRef(r.value.chain, r.value.address) == ParseTokenHref(href).value
    ensures r.Some? ==> r.value.ageMs == ParseAgeToMs(ageText) && r.value.slotIndex == slotIndex
    ensures r.Some? ==> r.value.symbol == symbol && r.value.name == name
  {
    match ParseTokenHref(href)
    case None => None
    case Some(ref) => Some(Token(ref.chain, ref.address, symbol, name, ParseAgeToMs(ageText), slotIndex))
  }

  /** `inWindowByAge` (content.js:217-219). */
  predicate InWindowByAge(ageMs: Option<nat>, windowMinutes: int): (r: bool)
    ensures r ==> ageMs.Some?
    ensures ageMs.Some? && ageMs.value == 0 && windowMinutes >= 0 ==> r
  {
    ageMs.Some? && ageMs.value <= windowMinutes * 60000
  }

  /** A younger token is in the window whenever an older one is. */
  lemma InWindowMonotone(a: nat, b: nat, windowMinutes: int)
    requires a <= b
    ensures InWindowByAge(Some(b), windowMinutes) ==> InWindowByAge(Some(a), windowMinutes)
  {
  }

  /** The window holds exactly `windowMinutes` minutes, its last millisecond
      included; a negative window holds nothing. */
  lemma InWindowBoundary(windowMinutes: int)
    ensures windowMinutes >= 0 ==> InWindowByAge(Some(windowMinutes * 60000), windowMinutes)
    ensures windowMinutes >= 0 ==> !InWindowByAge(Some(windowMinutes * 60000 + 1), windowMinutes)
    ensures windowMinutes < 0 ==> forall a: nat :: !InWindowByAge(Some(a), windowMinutes)
  {
  }

  /** The `canCompare` rule (content.js:779): only a token with an age is
      compared, and without the window option every such token is. */
  predicate CanCompare(t: Token, cfg: Config): (r: bool)
    ensures r ==> t.ageMs.Some?
    ensures !cfg.onlyWithinWindow ==> (r <==> t.ageMs.Some?)
    ensures cfg.onlyWithinWindow ==> (r <==> InWindowByAge(t.ageMs, cfg.windowMinutes))
  {
    t.ageMs.Some? && (!cfg.onlyWithinWindow || InWindowByAge(t.ageMs, cfg.windowMinutes))
  }

  /** A comparable entry has an age: what `collectTokens` guarantees. */
  predicate WellFormed(e: Entry)
  {
    e.canCompare ==> e.token.ageMs.Some?
  }

  function EntryOf(t: Token, cfg: Config, known: set<string>): Entry
  {
    var addrKey := AddrKey(t.chain, t.address);
    Entry(t, addrKey, BuildKeys(cfg.matchMode, t.symbol, t.name), CanCompare(t, cfg), addrKey !in known)
  }

  /** The rows without a key are dropped, the others keep their order. */
  function KeepKeyed(es: seq<Entry>): (r: seq<Entry>)
    ensures |r| <= |es|
    ensures forall i :: 0 <= i < |r| ==> r[i].keys != []
  {
    if es == [] then []
    else (if es[0].keys == [] then [] else [es[0]]) + KeepKeyed(es[1..])
  }

  /** The list `collectTokens` returns for the extracted rows `rows`, in row
      order. */
  function CollectEntries(rows: seq<Token>, cfg: Config, known: set<string>): (es: seq<Entry>)
    ensures |es| <= |rows|
    ensures forall i :: 0 <= i < |es| ==> es[i].keys != []
  {
    KeepKeyed(MapRows(rows, t => EntryOf(t, cfg, known)))
  }

  /** Every row's entry, before rows without keys are dropped. */
  function MapRows(rows: seq<Token>, f: Token -> Entry): (r: seq<Entry>)
    ensures |r| == |rows|
    ensures forall i :: 0 <= i < |rows| ==> r[i] == f(rows[i])
  {
    if rows == [] then [] else MapRows(rows[..|rows| - 1], f) + [f(rows[|rows| - 1])]
  }

  lemma {:induction false} KeepKeyedMembers(es: seq<Entry>)
    ensures forall e :: e in KeepKeyed(es) <==> e in es && e.keys != []
  {
    if es != [] {
      KeepKeyedMembers(es[1..]);
      assert es == [es[0]] + es[1..];
    }
  }

  lemma {:induction false} KeepKeyedSnoc(es: seq<Entry>, e: Entry)
    ensures KeepKeyed(es + [e]) == KeepKeyed(es) + (if e.keys == [] then [] else [e])
  {
    if es == [] {
      assert [] + [e] == [e];
      assert [e][1..] == [];
    } else {
      assert (es + [e])[0] == es[0];
      assert (es + [e])[1..] == es[1..] + [e];
      KeepKeyedSnoc(es[1..], e);
    }
  }

  /** Collecting one more row appends its entry when it has a key. */
  lemma CollectEntriesSnoc(rows: seq<Token>, cfg: Config, known: set<string>, i: int)
    requires 0 <= i < |rows|
    ensures var e := EntryOf(rows[i], cfg, known);
      CollectEntries(rows[..i + 1], cfg, known) == CollectEntries(rows[..i], cfg, known) + (if e.keys == [] then [] else [e])
  {
    KeepMappedSnoc(rows, t => EntryOf(t, cfg, known), i);
  }

  /** Keeping the keyed entries of one more mapped row. */
  lemma KeepMappedSnoc(rows: seq<Token>, f: Token -> Entry, i: int)
    requires 0 <= i < |rows|
    ensures KeepKeyed(MapRows(rows[..i + 1], f)) ==
      KeepKeyed(MapRows(rows[..i], f)) + (if f(rows[i]).keys == [] then [] else [f(rows[i])])
  {
    assert rows[..i + 1][..i] == rows[..i];
    assert MapRows(rows[..i + 1], f) == MapRows(rows[..i], f) + [f(rows[i])];
    KeepKeyedSnoc(MapRows(rows[..i], f), f(rows[i]));
  }

  /** The collected entries are exactly the rows with a key, in the form
      the collection rule gives them. */
  lemma CollectEntriesMembers(rows: seq<Token>, cfg: Config, known: set<string>)
    ensures forall e :: e in CollectEntries(rows, cfg, known) <==>
      exists i :: 0 <= i < |rows| && e == EntryOf(rows[i], cfg, known) && e.keys != []
  {
    forall e | e in CollectEntries(rows, cfg, known)
      ensures exists i :: 0 <= i < |rows| && e == EntryOf(rows[i], cfg, known) && e.keys != []
    {
      CollectedFromRow(rows, cfg, known, e);
    }
    forall i | 0 <= i < |rows| && EntryOf(rows[i], cfg, known).keys != []
      ensures EntryOf(rows[i], cfg, known) in CollectEntries(rows, cfg, known)
    {
      RowCollected(rows, cfg, known, i);
    }
  }

  lemma CollectedFromRow(rows: seq<Token>, cfg: Config, known: set<string>, e: Entry)
    requires e in CollectEntries(rows, cfg, known)
    ensures exists i :: 0 <= i < |rows| && e == EntryOf(rows[i], cfg, known) && e.keys != []
  {
    var cands := MapRows(rows, t => EntryOf(t, cfg, known));
    KeepKeyedMembers(cands);
    var i :| 0 <= i < |cands| && cands[i] == e;
  }

  lemma RowCollected(rows: seq<Token>, cfg: Config, known: set<string>, i: int)
    requires 0 <= i < |rows| && EntryOf(rows[i], cfg, known).keys != []
    ensures EntryOf(rows[i], cfg, known) in CollectEntries(rows, cfg, known)
  {
    var cands := MapRows(rows, t => EntryOf(t, cfg, known));
    KeepKeyedMembers(cands);
    assert cands[i] in cands;
  }

  /** What every collected entry satisfies: its keys are the token's match
      keys and not empty, it is comparable by the window rule, it has an age
      when comparable, and it is new exactly when its identity was not seen by
      the previous `scanBody` call, that is, in the previously scanned column. */
  lemma CollectedEntryFacts(rows: seq<Token>, cfg: Config, known: set<string>, e: Entry)
    requires e in CollectEntries(rows, cfg, known)
    ensures WellFormed(e)
    ensures e.keys == BuildKeys(cfg.matchMode, e.token.symbol, e.token.name) && e.keys != []
    ensures e.canCompare == CanCompare(e.token, cfg)
    ensures e.addrKey == AddrKey(e.token.chain, e.token.address)
    ensures e.isNew == (e.addrKey !in known)
  {
    CollectEntriesMembers(rows, cfg, known);
  }

  /** The identities of a batch: what `knownAddresses` becomes after it. */
  function AddrKeys(es: seq<Entry>): set<string>
  {
    set i | 0 <= i < |es| :: es[i].addrKey
  }

  lemma AddrKeysSnoc(es: seq<Entry>, i: int)
    requires 0 <= i < |es|
    ensures AddrKeys(es[..i + 1]) == AddrKeys(es[..i]) + {es[i].addrKey}
  {
    var p := es[..i + 1];
    assert p[i] == es[i];
    assert forall j :: 0 <= j < i ==> es[..i][j] == p[j];
  }
}
