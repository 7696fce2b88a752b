/**
 * The two text parsers of the content script: the age column ("40s", "3m",
 * "2h", "1d"; content.js:95-103) and the token link `/chain/token/address`
 * (content.js:105-109).
 */
module Parsing {
  import opened Wrappers
  import opened Text

  // ---------------------------------------------------------------- ages

  predicate IsUnit(c: char)
  {
    c == 's' || c == 'm' || c == 'h' || c == 'd'
  }

  /** Milliseconds per unit: the table `{ s: 1000, m: 60e3, h: 3600e3, d: 86400e3 }`. */
  function UnitMs(c: char): (r: nat)
    requires IsUnit(c)
    ensures r > 0
  {
    match c
    case 's' => 1000
    case 'm' => 60000
    case 'h' => 3600000
    case 'd' => 86400000
  }

  function DigitValue(c: char): (r: nat)
    requires IsDigit(c)
    ensures r < 10
  {
    c as int - '0' as int
  }

  /** The decimal value of a string of digits, `Number(m[1])`. */
  function DecimalValue(s: string): nat
    requires AllDigits(s)
  {
    if s == [] then 0 else DecimalValue(s[..|s| - 1]) * 10 + DigitValue(s[|s| - 1])
  }

  /** `parseAgeToMs`: after trimming and lower-casing, the text must be
      digits, optional white space and one unit letter; anything else gives
      `null`. A missing text is passed as the empty string. */
  function ParseAgeToMs(t: string): (r: Option<nat>)
    ensures r.Some? ==> r.value % 1000 == 0
    ensures Trim(t) == [] ==> r.None?
  {
    MatchAge(Lower(Trim(t)))
  }

  /** The match of `/^(\d+)\s*([smhd])$/` on the cleaned text, and its value. */
  function MatchAge(s: string): (r: Option<nat>)
    ensures r.Some? ==> r.value % 1000 == 0
    ensures |s| < 2 ==> r.None?
  {
    if |s| < 2 || !IsUnit(s[|s| - 1]) then None
    else
      var digits := TrimEnd(s[..|s| - 1]);
      if digits != [] && AllDigits(digits) then
        WholeSeconds(DecimalValue(digits), s[|s| - 1]);
        Some(DecimalValue(digits) * UnitMs(s[|s| - 1]))
      else None
  }

  /** Every unit is a whole number of seconds. */
  lemma WholeSeconds(n: nat, c: char)
    requires IsUnit(c)
    ensures (n * UnitMs(c)) % 1000 == 0
  {
    var k := UnitMs(c) / 1000;
    assert UnitMs(c) == 1000 * k;
    assert n * UnitMs(c) == (n * k) * 1000;
  }

  /** The shape `/^(\d+)\s*([smhd])$/` asks of the cleaned text. */
  predicate AgeShape(s: string, digits: string, gap: string, unit: char)
  {
    && s == digits + gap + [unit]
    && digits != [] && AllDigits(digits)
    && AllSpace(gap)
    && IsUnit(unit)
  }

  lemma {:induction false} TrimEndDigitsGap(digits: string, gap: string)
    requires digits != [] && AllDigits(digits) && AllSpace(gap)
    ensures TrimEnd(digits + gap) == digits
    decreases |gap|
  {
    if gap == [] {
      assert digits + gap == digits;
      TrimEndKeeps(digits);
    } else {
      assert (digits + gap)[..|digits + gap| - 1] == digits + gap[..|gap| - 1];
      TrimEndDigitsGap(digits, gap[..|gap| - 1]);
    }
  }

  /** Every accepted text has the regular expression's shape, and the value
      is the number times the unit. */
  lemma ParseAgeSound(t: string) returns (digits: string, gap: string, unit: char)
    requires ParseAgeToMs(t).Some?
    ensures AgeShape(Lower(Trim(t)), digits, gap, unit)
    ensures ParseAgeToMs(t).value == DecimalValue(digits) * UnitMs(unit)
  {
    digits, gap, unit := MatchAgeSound(Lower(Trim(t)));
  }

  lemma MatchAgeSound(s: string) returns (digits: string, gap: string, unit: char)
    requires MatchAge(s).Some?
    ensures AgeShape(s, digits, gap, unit)
    ensures MatchAge(s).value == DecimalValue(digits) * UnitMs(unit)
  {
    unit := s[|s| - 1];
    var body := s[..|s| - 1];
    digits := TrimEnd(body);
    gap := body[|digits|..];
    assert body == digits + gap;
    assert s == body + [unit];
  }

  /** Every text of the regular expression's shape is accepted with that
      value. */
  lemma ParseAgeComplete(t: string, digits: string, gap: string, unit: char)
    requires AgeShape(Lower(Trim(t)), digits, gap, unit)
    ensures ParseAgeToMs(t) == Some(DecimalValue(digits) * UnitMs(unit))
  {
    var s := Lower(Trim(t));
    assert s[..|s| - 1] == digits + gap;
    TrimEndDigitsGap(digits, gap);
  }

  /** The age text of the design's example, forty seconds. */
  lemma ParseAgeFortySeconds()
    ensures ParseAgeToMs("40s") == Some(40000)
  {
    assert Lower("40s") == "40s";
    TrimStartKeeps("40s");
    TrimEndKeeps("40s");
    assert "40s" == "40" + "" + ['s'];
    ParseAgeComplete("40s", "40", "", 's');
    assert "40" == ['4', '0'];
    assert DecimalValue("40") == 40;
  }

  // ---------------------------------------------------------------- links

  datatype TokenRef = TokenRef(chain: string, address: string)

  const AddressStop: set<char> := {'/', '?', '#'}

  predicate IsChain(c: string)
  {
    c != [] && forall i :: 0 <= i < |c| ==> c[i] != '/'
  }

  predicate IsAddress(a: string)
  {
    a != [] && forall i :: 0 <= i < |a| ==> a[i] !in AddressStop
  }

  function TokenPath(chain: string, address: string): string
  {
    "/" + chain + "/token/" + address
  }

  /** `parseTokenHref`: `/^\/([^/]+)\/token\/([^/?#]+)/`. The address runs
      up to the first `/`, `?` or `#`; the rest of the link is ignored. */
  function ParseTokenHref(href: string): (r: Option<TokenRef>)
    ensures r.Some? ==> IsChain(r.value.chain) && IsAddress(r.value.address)
    ensures r.Some? ==> var p := TokenPath(r.value.chain, r.value.address);
      p <= href && (|href| == |p| || href[|p|] in AddressStop)
  {
    if href == [] || href[0] != '/' then None
    else
      var n := SpanWithout(href[1..], {'/'});
      var rest := href[1 + n..];
      if n == 0 || !("/token/" <= rest) then None
      else
        var after := rest[7..];
        var m := SpanWithout(after, AddressStop);
        if m == 0 then None
        else
          var r := TokenRef(href[1..1 + n], after[..m]);
          TokenPathPrefix(href, n, m);
          Some(r)
  }

  /** The prefix of a link that `parseTokenHref` matched is the token path of
      what it extracted. */
  lemma TokenPathPrefix(href: string, n: nat, m: nat)
    requires 1 + n + 7 + m <= |href| && href[0] == '/' && href[1 + n..][..7] == "/token/"
    ensures href[..1 + n + 7 + m] == TokenPath(href[1..1 + n], href[1 + n..][7..][..m])
  {
    var rest := href[1 + n..];
    assert href[..1 + n] == "/" + href[1..1 + n];
    assert rest[..7 + m] == "/token/" + rest[7..][..m];
    assert href[..1 + n + 7 + m] == href[..1 + n] + rest[..7 + m];
  }

  /** A link built from a chain and an address parses back to them, whatever
      query, fragment or further path follows. */
  lemma ParseTokenHrefComplete(chain: string, address: string, rest: string)
    requires IsChain(chain) && IsAddress(address)
    requires rest == [] || rest[0] in AddressStop
    ensures ParseTokenHref(TokenPath(chain, address) + rest) == Some(TokenRef(chain, address))
  {
    var href := TokenPath(chain, address) + rest;
    var tail := "/token/" + address + rest;
    HrefChainPart(chain, tail, href);
    HrefAddressPart(address, rest, tail);
  }

  lemma HrefChainPart(chain: string, tail: string, href: string)
    requires IsChain(chain) && tail != [] && tail[0] == '/'
    requires href == "/" + chain + tail
    ensures href != [] && href[0] == '/'
    ensures SpanWithout(href[1..], {'/'}) == |chain|
    ensures href[1..1 + |chain|] == chain && href[1 + |chain|..] == tail
  {
    assert href[1..] == chain + tail;
    SpanStopsAt(chain, tail, {'/'});
  }

  lemma HrefAddressPart(address: string, rest: string, tail: string)
    requires IsAddress(address) && (rest == [] || rest[0] in AddressStop)
    requires tail == "/token/" + address + rest
    ensures "/token/" <= tail && tail[7..] == address + rest
    ensures SpanWithout(tail[7..], AddressStop) == |address|
    ensures tail[7..][..|address|] == address
  {
    assert tail[..7] == "/token/";
    SpanStopsAt(address, rest, AddressStop);
  }
}
