/**
 * Group keys (`buildKeys`, content.js:111-123): the normalized symbol and
 * name of a token become zero, one or two keys according to the match mode.
 * `DecodeKey` is the inverse used to show that the prefixes keep the kinds
 * of key apart.
 */
module Keys {
  import opened Wrappers
  import opened Text

  /** `cfg.matchMode`: "symbol", "name" and "both" have their own branch;
      every other value takes the last branch, one key per non-empty field. */
  datatype MatchMode = SymbolMode | NameMode | BothMode | EitherMode

  /** What one key says about the token it came from. */
  datatype KeyField = SymbolKey(symbol: string) | NameKey(name: string) | SymbolNameKey(symbol: string, name: string)

  function EncodeKey(f: KeyField): string
  {
    match f
    case SymbolKey(s) => "S:" + s
    case NameKey(n) => "N:" + n
    case SymbolNameKey(s, n) => "SN:" + s + "|" + n
  }

  /** Reads a key back: the prefix says which fields it holds, and in a
      combined key the first `|` ends the symbol. */
  function DecodeKey(k: string): Option<KeyField>
  {
    if |k| >= 3 && k[..3] == "SN:" then
      var body := k[3..];
      var p := SpanWithout(body, {'|'});
      if p < |body| then Some(SymbolNameKey(body[..p], body[p + 1..])) else None
    else if |k| >= 2 && k[..2] == "S:" then Some(SymbolKey(k[2..]))
    else if |k| >= 2 && k[..2] == "N:" then Some(NameKey(k[2..]))
    else None
  }

  /** The field values `normalize` can produce. */
  predicate FieldsNormal(f: KeyField)
  {
    match f
    case SymbolKey(s) => AllKeyChars(s)
    case NameKey(n) => AllKeyChars(n)
    case SymbolNameKey(s, n) => AllKeyChars(s) && AllKeyChars(n)
  }

  lemma DecodeEncode(f: KeyField)
    requires FieldsNormal(f)
    ensures DecodeKey(EncodeKey(f)) == Some(f)
  {
    var k := EncodeKey(f);
    match f
    case SymbolKey(s) =>
      assert k[..2] == "S:" && k[2..] == s;
      assert k[1] == ':';
      assert |k| >= 3 ==> k[..3][1] == ':';
    case NameKey(n) =>
      assert k[..2] == "N:" && k[2..] == n;
      assert k[0] == 'N';
      assert |k| >= 3 ==> k[..3][0] == 'N';
    case SymbolNameKey(s, n) =>
      assert k[..3] == "SN:";
      var body := k[3..];
      assert body == s + ("|" + n);
      assert forall i :: 0 <= i < |s| ==> s[i] != '|' by {
        forall i | 0 <= i < |s| ensures s[i] != '|' { assert IsKeyChar(s[i]); }
      }
      SpanStopsAt(s, "|" + n, {'|'});
      assert body[..|s|] == s && body[|s| + 1..] == n;
  }

  /** The fields behind the keys of a token whose normalized symbol is `S`
      and normalized name is `N`, in the order `buildKeys` emits them. */
  function KeyFields(mode: MatchMode, S: string, N: string): seq<KeyField>
  {
    match mode
    case SymbolMode => if S != "" then [SymbolKey(S)] else []
    case NameMode => if N != "" then [NameKey(N)] else []
    case BothMode => if S != "" && N != "" then [SymbolNameKey(S, N)] else []
    case EitherMode => (if S != "" then [SymbolKey(S)] else []) + (if N != "" then [NameKey(N)] else [])
  }

  function EncodeAll(fs: seq<KeyField>): (r: seq<string>)
    ensures |r| == |fs|
    ensures forall i :: 0 <= i < |fs| ==> r[i] == EncodeKey(fs[i])
  {
    if fs == [] then [] else [EncodeKey(fs[0])] + EncodeAll(fs[1..])
  }

  lemma KeyFieldsNormal(mode: MatchMode, S: string, N: string)
    requires AllKeyChars(S) && AllKeyChars(N)
    ensures forall i :: 0 <= i < |KeyFields(mode, S, N)| ==> FieldsNormal(KeyFields(mode, S, N)[i])
  {
  }

  /** `buildKeys`: every key decodes to the field it was made from. */
  function BuildKeys(mode: MatchMode, symbol: string, name: string): (r: seq<string>)
    ensures var fs := KeyFields(mode, Normalize(symbol), Normalize(name));
      |r| == |fs| && forall i :: 0 <= i < |r| ==> DecodeKey(r[i]) == Some(fs[i])
  {
    var fs := KeyFields(mode, Normalize(symbol), Normalize(name));
    KeyFieldsNormal(mode, Normalize(symbol), Normalize(name));
    forall i | 0 <= i < |fs| ensures DecodeKey(EncodeKey(fs[i])) == Some(fs[i]) {
      DecodeEncode(fs[i]);
    }
    EncodeAll(fs)
  }

  /** What each mode yields: at most one key outside the "either" mode, a
      combined key only when both fields survive normalization, the symbol
      key before the name key, and nothing for an empty field. */
  lemma BuildKeysShape(mode: MatchMode, symbol: string, name: string)
    ensures var r := BuildKeys(mode, symbol, name);
      var S := Normalize(symbol);
      var N := Normalize(name);
      && (mode != EitherMode ==> |r| <= 1)
      && (mode == SymbolMode ==> (r == [] <==> S == "") && (r != [] ==> DecodeKey(r[0]) == Some(SymbolKey(S))))
      && (mode == NameMode ==> (r == [] <==> N == "") && (r != [] ==> DecodeKey(r[0]) == Some(NameKey(N))))
      && (mode == BothMode ==> (r == [] <==> S == "" || N == "") && (r != [] ==> DecodeKey(r[0]) == Some(SymbolNameKey(S, N))))
      && (mode == EitherMode ==>
            && |r| == (if S != "" then 1 else 0) + (if N != "" then 1 else 0)
            && (S != "" ==> DecodeKey(r[0]) == Some(SymbolKey(S)))
            && (N != "" ==> DecodeKey(r[|r| - 1]) == Some(NameKey(N))))
  {
    var S, N := Normalize(symbol), Normalize(name);
    var fs := KeyFields(mode, S, N);
    assert mode == EitherMode && S != "" ==> fs[0] == SymbolKey(S);
    assert mode == EitherMode && N != "" ==> fs[|fs| - 1] == NameKey(N);
  }

  /** A token never carries the same key twice. */
  lemma BuildKeysDistinct(mode: MatchMode, symbol: string, name: string)
    ensures var r := BuildKeys(mode, symbol, name);
      forall i, j :: 0 <= i < j < |r| ==> r[i] != r[j]
  {
    var r := BuildKeys(mode, symbol, name);
    var fs := KeyFields(mode, Normalize(symbol), Normalize(name));
    KeyFieldsDistinct(mode, Normalize(symbol), Normalize(name));
    DecodedDistinct(r, fs);
  }

  lemma KeyFieldsDistinct(mode: MatchMode, S: string, N: string)
    ensures var fs := KeyFields(mode, S, N);
      forall i, j :: 0 <= i < j < |fs| ==> fs[i] != fs[j]
  {
  }

  /** Keys that decode to pairwise different fields are pairwise different. */
  lemma DecodedDistinct(r: seq<string>, fs: seq<KeyField>)
    requires |r| == |fs| && forall i :: 0 <= i < |r| ==> DecodeKey(r[i]) == Some(fs[i])
    requires forall i, j :: 0 <= i < j < |fs| ==> fs[i] != fs[j]
    ensures forall i, j :: 0 <= i < j < |r| ==> r[i] != r[j]
  {
    forall i, j | 0 <= i < j < |r| ensures r[i] != r[j] {
      assert DecodeKey(r[i]) == Some(fs[i]) && DecodeKey(r[j]) == Some(fs[j]);
    }
  }

  /** Every key body is made of key characters only. */
  lemma BuildKeysBodies(mode: MatchMode, symbol: string, name: string, i: nat)
    requires i < |BuildKeys(mode, symbol, name)|
    ensures DecodeKey(BuildKeys(mode, symbol, name)[i]).Some?
    ensures FieldsNormal(DecodeKey(BuildKeys(mode, symbol, name)[i]).value)
  {
    KeyFieldsNormal(mode, Normalize(symbol), Normalize(name));
  }

  /** Encoding is injective on normalized fields, so two key lists share a
      key exactly when their field lists share a field. */
  lemma SharedKeyIffSharedField(fs1: seq<KeyField>, fs2: seq<KeyField>)
    requires forall i :: 0 <= i < |fs1| ==> FieldsNormal(fs1[i])
    requires forall i :: 0 <= i < |fs2| ==> FieldsNormal(fs2[i])
    ensures (exists k :: k in EncodeAll(fs1) && k in EncodeAll(fs2)) <==> (exists f :: f in fs1 && f in fs2)
  {
    var r1, r2 := EncodeAll(fs1), EncodeAll(fs2);
    if k :| k in r1 && k in r2 {
      var i, j := SharedKeyFields(fs1, fs2, k);
      var f := fs1[i];
      assert f in fs1 && f in fs2;
    }
    forall f | f in fs1 && f in fs2 ensures exists k :: k in r1 && k in r2 {
      EncodedIn(fs1, f);
      EncodedIn(fs2, f);
    }
  }

  lemma EncodedIn(fs: seq<KeyField>, f: KeyField)
    requires f in fs
    ensures EncodeKey(f) in EncodeAll(fs)
  {
    var i :| 0 <= i < |fs| && fs[i] == f;
    assert EncodeAll(fs)[i] == EncodeKey(f);
  }

  lemma SharedKeyFields(fs1: seq<KeyField>, fs2: seq<KeyField>, k: string) returns (i: nat, j: nat)
    requires forall i :: 0 <= i < |fs1| ==> FieldsNormal(fs1[i])
    requires forall i :: 0 <= i < |fs2| ==> FieldsNormal(fs2[i])
    requires k in EncodeAll(fs1) && k in EncodeAll(fs2)
    ensures i < |fs1| && j < |fs2| && fs1[i] == fs2[j]
  {
    var r1, r2 := EncodeAll(fs1), EncodeAll(fs2);
    i :| 0 <= i < |r1| && r1[i] == k;
    j :| 0 <= j < |r2| && r2[j] == k;
    DecodeEncode(fs1[i]);
    DecodeEncode(fs2[j]);
  }

  lemma SharedFieldIff(mode: MatchMode, S1: string, N1: string, S2: string, N2: string)
    ensures (exists f :: f in KeyFields(mode, S1, N1) && f in KeyFields(mode, S2, N2)) <==>
      match mode
      case SymbolMode => S1 == S2 != ""
      case NameMode => N1 == N2 != ""
      case BothMode => S1 == S2 != "" && N1 == N2 != ""
      case EitherMode => S1 == S2 != "" || N1 == N2 != ""
  {
    var fs1, fs2 := KeyFields(mode, S1, N1), KeyFields(mode, S2, N2);
    if mode == EitherMode {
      if S1 == S2 != "" { assert SymbolKey(S1) in fs1 && SymbolKey(S1) in fs2; }
      if N1 == N2 != "" { assert NameKey(N1) in fs1 && NameKey(N1) in fs2; }
    } else if mode == SymbolMode {
      if S1 == S2 != "" { assert SymbolKey(S1) in fs1; }
    } else if mode == NameMode {
      if N1 == N2 != "" { assert NameKey(N1) in fs1; }
    } else {
      if S1 == S2 != "" && N1 == N2 != "" { assert SymbolNameKey(S1, N1) in fs1; }
    }
  }

  /** Two tokens fall in a common group exactly when the fields the mode
      looks at agree and are non-empty after normalization. */
  lemma SameGroupIff(mode: MatchMode, s1: string, n1: string, s2: string, n2: string)
    ensures (exists k :: k in BuildKeys(mode, s1, n1) && k in BuildKeys(mode, s2, n2)) <==>
      match mode
      case SymbolMode => Normalize(s1) == Normalize(s2) != ""
      case NameMode => Normalize(n1) == Normalize(n2) != ""
      case BothMode => Normalize(s1) == Normalize(s2) != "" && Normalize(n1) == Normalize(n2) != ""
      case EitherMode => Normalize(s1) == Normalize(s2) != "" || Normalize(n1) == Normalize(n2) != ""
  {
    var S1, N1, S2, N2 := Normalize(s1), Normalize(n1), Normalize(s2), Normalize(n2);
    KeyFieldsNormal(mode, S1, N1);
    KeyFieldsNormal(mode, S2, N2);
    assert BuildKeys(mode, s1, n1) == EncodeAll(KeyFields(mode, S1, N1));
    assert BuildKeys(mode, s2, n2) == EncodeAll(KeyFields(mode, S2, N2));
    SharedKeyIffSharedField(KeyFields(mode, S1, N1), KeyFields(mode, S2, N2));
    SharedFieldIff(mode, S1, N1, S2, N2);
  }
}
