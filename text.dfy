/**
 * Character classes and the string clean-up steps of `normalize`
 * (content.js:87-93): lower-casing, trimming, collapsing white space and
 * stripping every character outside the allowed set.
 */
module Text {

  /** The characters matched by `\s` in an ECMAScript regular expression and
      removed by `String.prototype.trim`: white space and line terminators. */
  predicate IsJsSpace(c: char)
  {
    || ('\U{9}' <= c <= '\U{D}') || c == ' ' || c == '\U{A0}' || c == '\U{1680}'
    || ('\U{2000}' <= c <= '\U{200A}')
    || c == '\U{2028}' || c == '\U{2029}' || c == '\U{202F}' || c == '\U{205F}'
    || c == '\U{3000}' || c == '\U{FEFF}'
  }

  /** `[0-9]`, which is what `\d` matches. */
  predicate IsDigit(c: char)
  {
    '0' <= c <= '9'
  }

  /** The characters kept by `normalize`: `a-z`, `0-9`, the CJK range
      U+4E00..U+9FA5 and the plain space. */
  predicate IsKeyChar(c: char)
  {
    ('a' <= c <= 'z') || IsDigit(c) || ('\U{4E00}' <= c <= '\U{9FA5}') || c == ' '
  }

  predicate AllKeyChars(s: string)
  {
    forall i :: 0 <= i < |s| ==> IsKeyChar(s[i])
  }

  predicate AllSpace(s: string)
  {
    forall i :: 0 <= i < |s| ==> IsJsSpace(s[i])
  }

  predicate AllDigits(s: string)
  {
    forall i :: 0 <= i < |s| ==> IsDigit(s[i])
  }

  /** Lower-casing of one character; only the ASCII letters are mapped. */
  function LowerChar(c: char): (r: char)
    ensures ('A' <= c <= 'Z') ==> 'a' <= r <= 'z' && r as int == c as int + 32
    ensures !('A' <= c <= 'Z') ==> r == c
  {
    if 'A' <= c <= 'Z' then (c as int + 32) as char else c
  }

  function Lower(s: string): (r: string)
    ensures |r| == |s|
    ensures forall i :: 0 <= i < |s| ==> r[i] == LowerChar(s[i])
  {
    seq(|s|, i requires 0 <= i < |s| => LowerChar(s[i]))
  }

  /** Drops the leading white space. */
  function TrimStart(s: string): (r: string)
    ensures |r| <= |s| && r == s[|s| - |r|..]
    ensures AllSpace(s[..|s| - |r|])
    ensures r == [] || !IsJsSpace(r[0])
    decreases |s|
  {
    if |s| > 0 && IsJsSpace(s[0]) then
      var r := TrimStart(s[1..]);
      assert s[1..][|s| - 1 - |r|..] == s[|s| - |r|..];
      assert s[..|s| - |r|] == [s[0]] + s[1..][..|s| - 1 - |r|];
      r
    else s
  }

  /** Drops the trailing white space. */
  function TrimEnd(s: string): (r: string)
    ensures |r| <= |s| && r == s[..|r|]
    ensures AllSpace(s[|r|..])
    ensures r == [] || !IsJsSpace(r[|r| - 1])
    decreases |s|
  {
    if |s| > 0 && IsJsSpace(s[|s| - 1]) then
      var r := TrimEnd(s[..|s| - 1]);
      assert s[|r|..] == s[..|s| - 1][|r|..] + [s[|s| - 1]];
      r
    else s
  }

  /** `String.prototype.trim`: the result has white space at neither end,
      and is what is left of `s` once its leading and trailing white space
      is dropped (`TrimPadded`). */
  function Trim(s: string): (r: string)
    ensures |r| <= |s|
    ensures r == [] || (!IsJsSpace(r[0]) && !IsJsSpace(r[|r| - 1]))
  {
    TrimEnd(TrimStart(s))
  }

  /** `.replace(/\s+/g, " ")`: every maximal run of white space becomes one
      plain space (`CollapseAppend`, `CollapseRun`, `CollapseWord`). A white
      space character followed by another is dropped; the last one of a run
      becomes `' '`. The result is empty exactly when `s` is, starts with
      white space exactly when `s` does, and its only white space is the
      plain space, never twice in a row. */
  function CollapseSpaces(s: string): (r: string)
    ensures |r| <= |s|
    ensures |r| == 0 <==> |s| == 0
    ensures r != [] ==> (IsJsSpace(r[0]) <==> IsJsSpace(s[0]))
    ensures forall i :: 0 <= i < |r| && IsJsSpace(r[i]) ==> r[i] == ' '
    ensures forall i, j :: 0 <= i && j == i + 1 && j < |r| ==> !(IsJsSpace(r[i]) && IsJsSpace(r[j]))
  {
    if s == [] then []
    else if IsJsSpace(s[0]) && |s| > 1 && IsJsSpace(s[1]) then CollapseSpaces(s[1..])
    else if IsJsSpace(s[0]) then [' '] + CollapseSpaces(s[1..])
    else [s[0]] + CollapseSpaces(s[1..])
  }

  /** `.replace(/[^a-z0-9\u4e00-\u9fa5 ]+/g, "")`: removes every character
      outside the allowed set and keeps the others in order (`StripAppend`,
      `StripChar`). */
  function StripDisallowed(s: string): (r: string)
    ensures |r| <= |s|
    ensures AllKeyChars(r)
  {
    if s == [] then []
    else if IsKeyChar(s[0]) then [s[0]] + StripDisallowed(s[1..])
    else StripDisallowed(s[1..])
  }

  /** `normalize` (content.js:87-93); a missing value is the empty string.
      Its value on words separated by white space is `NormalizeWords`. */
  function Normalize(s: string): (r: string)
    ensures AllKeyChars(r)
    ensures |r| <= |s|
  {
    StripDisallowed(CollapseSpaces(Trim(Lower(s))))
  }

  /** A string `normalize` leaves as it is: key characters only, no space at
      either end and never two spaces in a row. */
  predicate IsCanonical(s: string)
  {
    && AllKeyChars(s)
    && (|s| > 0 ==> s[0] != ' ' && s[|s| - 1] != ' ')
    && NoDoubleSpace(s)
  }

  predicate NoDoubleSpace(s: string)
  {
    forall i :: 0 < i < |s| ==> !(s[i - 1] == ' ' && s[i] == ' ')
  }

  lemma LowerKeepsKeyChars(s: string)
    requires AllKeyChars(s)
    ensures Lower(s) == s
  {
  }

  lemma {:induction false} TrimStartKeeps(s: string)
    requires s == [] || !IsJsSpace(s[0])
    ensures TrimStart(s) == s
  {
  }

  lemma {:induction false} TrimEndKeeps(s: string)
    requires s == [] || !IsJsSpace(s[|s| - 1])
    ensures TrimEnd(s) == s
  {
  }

  lemma {:induction false} CollapseKeepsCanonical(s: string)
    requires AllKeyChars(s) && NoDoubleSpace(s)
    requires |s| > 0 ==> s[|s| - 1] != ' '
    ensures CollapseSpaces(s) == s
    decreases |s|
  {
    if s != [] {
      var t := s[1..];
      assert AllKeyChars(t) && NoDoubleSpace(t) by {
        forall i | 0 < i < |t| ensures IsKeyChar(t[i]) && !(t[i - 1] == ' ' && t[i] == ' ') {
          assert t[i - 1] == s[i] && t[i] == s[i + 1];
        }
      }
      if IsJsSpace(s[0]) {
        assert |s| > 1 && s[1] != ' ';
        TrimStartKeeps(t);
      }
      CollapseKeepsCanonical(t);
    }
  }

  lemma {:induction false} StripKeepsKeyChars(s: string)
    requires AllKeyChars(s)
    ensures StripDisallowed(s) == s
  {
    if s != [] {
      StripKeepsKeyChars(s[1..]);
    }
  }

  /** `normalize` is the identity on canonical strings. */
  lemma {:induction false} NormalizeCanonical(s: string)
    requires IsCanonical(s)
    ensures Normalize(s) == s
  {
    LowerKeepsKeyChars(s);
    TrimStartKeeps(s);
    TrimEndKeeps(s);
    CollapseKeepsCanonical(s);
    StripKeepsKeyChars(s);
  }

  // ---------------------------------------------------------------- the steps on general input

  lemma LowerAppend(a: string, b: string)
    ensures Lower(a + b) == Lower(a) + Lower(b)
  {
  }

  /** Lower-casing leaves white space alone and never makes any. */
  lemma LowerSpaces(s: string)
    ensures AllSpace(s) ==> Lower(s) == s
    ensures forall i :: 0 <= i < |s| ==> (IsJsSpace(Lower(s)[i]) <==> IsJsSpace(s[i]))
  {
  }

  lemma {:induction false} TrimStartSpaces(a: string, b: string)
    requires AllSpace(a)
    ensures TrimStart(a + b) == TrimStart(b)
    decreases |a|
  {
    if a == [] {
      assert a + b == b;
    } else {
      assert (a + b)[1..] == a[1..] + b;
      TrimStartSpaces(a[1..], b);
    }
  }

  lemma {:induction false} TrimEndSpaces(a: string, b: string)
    requires AllSpace(b)
    ensures TrimEnd(a + b) == TrimEnd(a)
    decreases |b|
  {
    if b == [] {
      assert a + b == a;
    } else {
      assert (a + b)[..|a + b| - 1] == a + b[..|b| - 1];
      TrimEndSpaces(a, b[..|b| - 1]);
    }
  }

  /** `trim` drops exactly the white space at both ends. */
  lemma TrimPadded(lead: string, x: string, trail: string)
    requires AllSpace(lead) && AllSpace(trail)
    requires x == [] || (!IsJsSpace(x[0]) && !IsJsSpace(x[|x| - 1]))
    ensures Trim(lead + x + trail) == x
  {
    assert lead + x + trail == lead + (x + trail);
    TrimStartSpaces(lead, x + trail);
    if x == [] {
      assert x + trail == trail;
      TrimStartSpaces(trail, []);
      assert trail + [] == trail;
    } else {
      TrimStartKeeps(x + trail);
    }
    TrimEndSpaces(x, trail);
    TrimEndKeeps(x);
  }

  /** Collapsing works piece by piece when the cut is not inside a run of
      white space. */
  lemma {:induction false} CollapseAppend(a: string, b: string)
    requires a == [] || b == [] || !IsJsSpace(a[|a| - 1]) || !IsJsSpace(b[0])
    ensures CollapseSpaces(a + b) == CollapseSpaces(a) + CollapseSpaces(b)
    decreases |a|
  {
    if a == [] {
      assert a + b == b;
    } else if b == [] {
      assert a + b == a;
    } else {
      var x := a + b;
      assert x[0] == a[0] && x[1..] == a[1..] + b;
      if |a| > 1 {
        assert x[1] == a[1] && a[1..][|a| - 2] == a[|a| - 1];
        CollapseAppend(a[1..], b);
      } else {
        assert a[1..] == [] && x[1..] == b;
      }
    }
  }

  /** A run of white space becomes one plain space. */
  lemma CollapseRun(g: string)
    requires g != [] && AllSpace(g)
    ensures CollapseSpaces(g) == " "
  {
  }

  predicate NoSpace(s: string)
  {
    forall i :: 0 <= i < |s| ==> !IsJsSpace(s[i])
  }

  /** Text without white space is kept as it is. */
  lemma {:induction false} CollapseWord(w: string)
    requires NoSpace(w)
    ensures CollapseSpaces(w) == w
  {
    if w != [] {
      assert NoSpace(w[1..]) by {
        forall i | 0 <= i < |w[1..]| ensures !IsJsSpace(w[1..][i]) {
          assert w[1..][i] == w[i + 1];
        }
      }
      CollapseWord(w[1..]);
    }
  }

  /** Stripping works character by character. */
  lemma {:induction false} StripAppend(a: string, b: string)
    ensures StripDisallowed(a + b) == StripDisallowed(a) + StripDisallowed(b)
  {
    if a == [] {
      assert a + b == b;
    } else {
      assert (a + b)[0] == a[0] && (a + b)[1..] == a[1..] + b;
      StripAppend(a[1..], b);
    }
  }

  /** One character is kept exactly when it is a key character. */
  lemma StripChar(c: char)
    ensures StripDisallowed([c]) == if IsKeyChar(c) then [c] else []
  {
    assert [c][1..] == [];
  }

  // ---------------------------------------------------------------- normalize on words

  /** A word: non-empty and free of white space. */
  predicate IsWord(w: string)
  {
    w != [] && NoSpace(w)
  }

  /** A gap between words: a non-empty run of white space. */
  predicate IsGap(g: string)
  {
    g != [] && AllSpace(g)
  }

  /** The text made of the word `w` and then each (gap, word) pair of `rest`. */
  function Spaced(w: string, rest: seq<(string, string)>): string
    decreases |rest|
  {
    if rest == [] then w else w + rest[0].0 + Spaced(rest[0].1, rest[1..])
  }

  predicate WellSpaced(w: string, rest: seq<(string, string)>)
  {
    IsWord(w) && forall i :: 0 <= i < |rest| ==> IsGap(rest[i].0) && IsWord(rest[i].1)
  }

  /** Each word lower-cased and stripped, joined by single plain spaces. */
  function Cleaned(w: string, rest: seq<(string, string)>): string
    decreases |rest|
  {
    if rest == [] then StripDisallowed(Lower(w))
    else StripDisallowed(Lower(w)) + " " + Cleaned(rest[0].1, rest[1..])
  }

  /** `normalize` on words separated by white space: it lower-cases and
      strips each word, joins them with one plain space, and drops the white
      space at both ends. */
  lemma NormalizeWords(lead: string, w: string, rest: seq<(string, string)>, trail: string)
    requires AllSpace(lead) && AllSpace(trail) && WellSpaced(w, rest)
    ensures Normalize(lead + Spaced(w, rest) + trail) == Cleaned(w, rest)
  {
    var x := Spaced(w, rest);
    LowerAppend(lead + x, trail);
    LowerAppend(lead, x);
    LowerSpaces(lead);
    LowerSpaces(trail);
    LowerSpaced(w, rest);
    TrimPadded(lead, Lower(x), trail);
  }

  /** The induction behind `NormalizeWords`, on the lower-cased text. */
  lemma {:induction false} LowerSpaced(w: string, rest: seq<(string, string)>)
    requires WellSpaced(w, rest)
    ensures var t := Lower(Spaced(w, rest));
      t != [] && !IsJsSpace(t[0]) && !IsJsSpace(t[|t| - 1]) &&
      StripDisallowed(CollapseSpaces(t)) == Cleaned(w, rest)
    decreases |rest|
  {
    LowerWord(w);
    if rest == [] {
      CollapseWord(Lower(w));
    } else {
      var g := rest[0].0;
      var u := Spaced(rest[0].1, rest[1..]);
      assert WellSpaced(rest[0].1, rest[1..]) by {
        forall i | 0 <= i < |rest[1..]| ensures IsGap(rest[1..][i].0) && IsWord(rest[1..][i].1) {
          assert rest[1..][i] == rest[i + 1];
        }
      }
      LowerSpaced(rest[0].1, rest[1..]);
      assert Spaced(w, rest) == w + (g + u);
      LowerJoin(w, g, u);
      JoinStep(Lower(w), g, Lower(u));
    }
  }

  lemma LowerWord(w: string)
    requires IsWord(w)
    ensures IsWord(Lower(w))
  {
    LowerSpaces(w);
  }

  lemma LowerJoin(w: string, g: string, u: string)
    requires AllSpace(g)
    ensures Lower(w + (g + u)) == Lower(w) + (g + Lower(u))
  {
    LowerAppend(w, g + u);
    LowerAppend(g, u);
    LowerSpaces(g);
  }

  /** One gap between a lower-cased word and the rest of the text. */
  lemma JoinStep(lw: string, g: string, lu: string)
    requires IsWord(lw) && IsGap(g) && lu != [] && !IsJsSpace(lu[0]) && !IsJsSpace(lu[|lu| - 1])
    ensures var t := lw + (g + lu);
      t != [] && !IsJsSpace(t[0]) && !IsJsSpace(t[|t| - 1]) &&
      StripDisallowed(CollapseSpaces(t)) == StripDisallowed(lw) + " " + StripDisallowed(CollapseSpaces(lu))
  {
    CollapseJoin(lw, g, lu);
    StripJoin(lw, CollapseSpaces(lu));
    var t := lw + (g + lu);
    assert t[0] == lw[0] && t[|t| - 1] == lu[|lu| - 1];
  }

  lemma CollapseJoin(lw: string, g: string, lu: string)
    requires IsWord(lw) && IsGap(g) && lu != [] && !IsJsSpace(lu[0])
    ensures CollapseSpaces(lw + (g + lu)) == lw + (" " + CollapseSpaces(lu))
  {
    CollapseWord(lw);
    CollapseAppend(g, lu);
    CollapseRun(g);
    CollapseAppend(lw, g + lu);
  }

  lemma StripJoin(a: string, b: string)
    ensures StripDisallowed(a + (" " + b)) == StripDisallowed(a) + " " + StripDisallowed(b)
  {
    StripAppend(a, " " + b);
    StripAppend(" ", b);
    StripChar(' ');
  }

  /** `normalize` is not idempotent: the strip runs after the trim, so a
      removed character can leave a trailing space behind. */
  lemma NormalizeNotIdempotent()
    ensures Normalize("a !") == "a "
    ensures Normalize(Normalize("a !")) == "a"
  {
    NormalizeBang();
    NormalizeTrailingSpace();
  }

  lemma NormalizeBang()
    ensures Normalize("a !") == "a "
  {
    BangSteps();
  }

  lemma BangSteps()
    ensures Lower("a !") == "a !" && Trim("a !") == "a !"
    ensures CollapseSpaces("a !") == "a !" && StripDisallowed("a !") == "a "
  {
    var s := "a !";
    assert Lower(s) == s by {
      assert forall i :: 0 <= i < |s| ==> LowerChar(s[i]) == s[i];
    }
    assert TrimStart(s) == s by {
      assert !IsJsSpace(s[0]);
    }
    assert TrimEnd(s) == s by {
      assert !IsJsSpace(s[2]);
    }
    CollapseBang();
    StripBang();
  }

  lemma CollapseBang()
    ensures CollapseSpaces("a !") == "a !"
  {
    var s := "a !";
    assert s[0] == 'a' && s[1..] == " !" && " !"[0] == ' ' && " !"[1..] == "!" && "!"[0] == '!' && "!"[1..] == [];
    assert !IsJsSpace('a') && IsJsSpace(' ') && !IsJsSpace('!');
    assert CollapseSpaces("!") == ['!'] + CollapseSpaces([]);
    assert CollapseSpaces(" !") == [' '] + CollapseSpaces("!");
    assert CollapseSpaces(s) == ['a'] + CollapseSpaces(" !");
  }

  lemma StripBang()
    ensures StripDisallowed("a !") == "a "
  {
    var s := "a !";
    assert s[1..] == " !" && s[1..][1..] == "!" && "!"[1..] == [];
    assert StripDisallowed("!") == [];
  }

  lemma NormalizeTrailingSpace()
    ensures Normalize("a ") == "a"
  {
    var s := "a ";
    assert Lower(s) == s by {
      assert forall i :: 0 <= i < |s| ==> LowerChar(s[i]) == s[i];
    }
    assert TrimStart(s) == s by {
      assert !IsJsSpace(s[0]);
    }
    assert TrimEnd(s) == "a" by {
      assert IsJsSpace(s[1]) && s[..1] == "a";
      assert TrimEnd("a") == "a";
    }
    assert CollapseSpaces("a") == "a" by {
      assert "a"[1..] == [];
    }
    assert StripDisallowed("a") == "a" by {
      assert "a"[1..] == [];
    }
  }

  /** The length of the longest prefix of `s` free of the characters in `stop`. */
  function SpanWithout(s: string, stop: set<char>): (n: nat)
    ensures n <= |s|
    ensures forall i :: 0 <= i < n ==> s[i] !in stop
    ensures n < |s| ==> s[n] in stop
  {
    if s == [] || s[0] in stop then 0 else 1 + SpanWithout(s[1..], stop)
  }

  lemma {:induction false} SpanStopsAt(x: string, y: string, stop: set<char>)
    requires forall i :: 0 <= i < |x| ==> x[i] !in stop
    requires y == [] || y[0] in stop
    ensures SpanWithout(x + y, stop) == |x|
  {
    if x != [] {
      assert (x + y)[1..] == x[1..] + y;
      SpanStopsAt(x[1..], y, stop);
    } else {
      assert x + y == y;
    }
  }
}
