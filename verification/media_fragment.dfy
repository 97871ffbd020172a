/** The media-fragment offset of mediaFragment.js: a `t=<start>,<end>` range found in
    the address's hash shifts local playback time to media time.

    The source finds the range with the pattern `t=[0-9]+(.([0-9]+))?,[0-9]+(.([0-9]+))?`
    (the `.` is not escaped, so any character but a line terminator, or one that takes
    two UTF-16 code units, separates the whole and fraction digits), strips the leading `t=`, splits the matched text at
    commas and reads the first two pieces with parseFloat. */
module MediaFragments {
  import opened Base
  import opened Strings

  // ---------------------------------------------------------------------------
  // The pattern, declaratively
  // ---------------------------------------------------------------------------

  /** The characters a regular-expression `.` does not match. */
  predicate IsLineTerminator(c: char) {
    c == '\n' || c == '\r' || c == '\U{2028}' || c == '\U{2029}'
  }

  /** Whether the `.` of `[0-9]+(.([0-9]+))?` can stand for c, with a digit after it.
      The pattern has no `u` flag, so it runs over UTF-16 code units: a character
      outside the Basic Multilingual Plane is two of them, `.` takes the first, and the
      second, a low surrogate, is no digit. Such a character never separates the whole
      and fraction digits, and neither does a line terminator. */
  predicate DotMatches(c: char) {
    !IsLineTerminator(c) && (c as int) < 0x1_0000
  }

  /** s[a..b] is a non-empty run of digits: `[0-9]+`. */
  predicate DigitsIn(s: string, a: int, b: int) {
    0 <= a < b <= |s| && forall x :: a <= x < b ==> IsDigit(s[x])
  }

  /** s[a..b] matches `[0-9]+(.([0-9]+))?`. */
  ghost predicate NumberIn(s: string, a: int, b: int) {
    b <= |s| && exists k :: DigitsIn(s, a, k) && (k == b || (k + 1 < b && DotMatches(s[k]) && DigitsIn(s, k + 1, b)))
  }

  /** s[a..b] matches the whole pattern `t=[0-9]+(.([0-9]+))?,[0-9]+(.([0-9]+))?`. */
  ghost predicate MatchesAt(s: string, a: int, b: int) {
    0 <= a && a + 2 <= |s| && b <= |s| && s[a] == 't' && s[a + 1] == '='
    && exists c :: a + 2 < c < b && s[c] == ',' && NumberIn(s, a + 2, c) && NumberIn(s, c + 1, b)
  }

  // ---------------------------------------------------------------------------
  // The pattern, as the backtracking engine runs it
  // ---------------------------------------------------------------------------

  /** The end of the run of digits that starts at i (i itself when s[i] is no digit). */
  function DigitRunEnd(s: string, i: nat): (j: nat)
    requires i <= |s|
    ensures i <= j <= |s|
    ensures forall x :: i <= x < j ==> IsDigit(s[x])
    ensures j == |s| || !IsDigit(s[j])
    decreases |s| - i
  {
    if i < |s| && IsDigit(s[i]) then DigitRunEnd(s, i + 1) else i
  }

  /** Where the engine ends `[0-9]+(.([0-9]+))?` begun at a digit p when nothing follows
      it in the pattern: the greedy digit run, then the optional group when a separator
      and a digit follow. */
  function NumberEnd(s: string, p: nat): (e: nat)
    requires p < |s| && IsDigit(s[p])
    ensures p < e <= |s|
  {
    var m := DigitRunEnd(s, p);
    if m + 1 < |s| && DotMatches(s[m]) && IsDigit(s[m + 1]) then DigitRunEnd(s, m + 1) else m
  }

  /** The engine's end for a number is the end of a match of `[0-9]+(.([0-9]+))?`. */
  lemma NumberEndMatches(s: string, p: nat)
    requires p < |s| && IsDigit(s[p])
    ensures NumberIn(s, p, NumberEnd(s, p))
  {
    var m := DigitRunEnd(s, p);
    assert DigitsIn(s, p, m);
    if m + 1 < |s| && DotMatches(s[m]) && IsDigit(s[m + 1]) {
      assert DigitsIn(s, m + 1, DigitRunEnd(s, m + 1));
    }
  }

  /** The comma the engine settles on for a match begun at a: the greedy first number
      with its optional group is tried first; failing that, the number without the
      group; a shorter first digit run never helps. */
  function CommaAt(s: string, a: nat): (c: Option<nat>)
    requires a <= |s|
    ensures c.Some? ==> a + 2 < c.value && c.value + 1 < |s| && s[c.value] == ',' && IsDigit(s[c.value + 1])
  {
    if a + 2 >= |s| || s[a] != 't' || s[a + 1] != '=' || !IsDigit(s[a + 2]) then None
    else
      var j := DigitRunEnd(s, a + 2);
      if j + 1 < |s| && DotMatches(s[j]) && IsDigit(s[j + 1])
         && DigitRunEnd(s, j + 1) + 1 < |s| && s[DigitRunEnd(s, j + 1)] == ','
         && IsDigit(s[DigitRunEnd(s, j + 1) + 1]) then
        Some(DigitRunEnd(s, j + 1))
      else if j + 1 < |s| && s[j] == ',' && IsDigit(s[j + 1]) then
        Some(j)
      else
        None
  }

  /** The end of the match the engine finds at position a, if any. */
  function MatchAt(s: string, a: nat): Option<nat>
    requires a <= |s|
  {
    match CommaAt(s, a)
    case None => None
    case Some(c) => Some(NumberEnd(s, c + 1))
  }

  /** String.prototype.match with the pattern: tries each start position from `from` on
      and returns the first match as (start, end). */
  function Search(s: string, from: nat): Option<(nat, nat)>
    requires from <= |s|
    decreases |s| - from
  {
    match MatchAt(s, from)
    case Some(b) => Some((from, b))
    case None => if from == |s| then None else Search(s, from + 1)
  }

  // ---------------------------------------------------------------------------
  // The engine finds the leftmost, longest match
  // ---------------------------------------------------------------------------

  /** A digit run reaches at least as far as any stretch of digits it starts. */
  lemma {:induction false} RunCovers(s: string, p: nat, b: nat)
    requires p <= b <= |s| && forall x :: p <= x < b ==> IsDigit(s[x])
    ensures b <= DigitRunEnd(s, p)
    decreases b - p
  {
    if p < b {
      assert IsDigit(s[p]);
      RunCovers(s, p + 1, b);
    }
  }

  /** A digit run stops at the first non-digit. */
  lemma RunStops(s: string, p: nat, b: nat)
    requires p <= b < |s| && !IsDigit(s[b]) && forall x :: p <= x < b ==> IsDigit(s[x])
    ensures DigitRunEnd(s, p) == b
  {
    RunCovers(s, p, b);
  }

  /** No number begun at p reaches past the engine's end for it. */
  lemma NumberLongest(s: string, p: nat, b: int)
    requires NumberIn(s, p, b)
    ensures p < |s| && IsDigit(s[p]) && b <= NumberEnd(s, p)
  {
    var k :| DigitsIn(s, p, k) && (k == b || (k + 1 < b && DotMatches(s[k]) && DigitsIn(s, k + 1, b)));
    assert IsDigit(s[p]);
    var m := DigitRunEnd(s, p);
    RunCovers(s, p, k);
    if k != b {
      if k < m {
        assert IsDigit(s[k]);
        RunCovers(s, p, b);
      } else {
        assert k == m;
        RunCovers(s, m + 1, b);
      }
    }
  }

  /** The comma of any match begun at a is one of the two the engine tries, and the
      engine's own choice lies no earlier. */
  lemma CommaCandidates(s: string, a: nat, c: nat)
    requires 0 <= a && a + 2 <= |s| && s[a] == 't' && s[a + 1] == '='
    requires c < |s| && s[c] == ',' && NumberIn(s, a + 2, c)
    ensures a + 2 < |s| && IsDigit(s[a + 2])
    ensures var j := DigitRunEnd(s, a + 2);
      c == j || (j + 1 < |s| && DotMatches(s[j]) && IsDigit(s[j + 1]) && c == DigitRunEnd(s, j + 1))
  {
    var k :| DigitsIn(s, a + 2, k) && (k == c || (k + 1 < c && DotMatches(s[k]) && DigitsIn(s, k + 1, c)));
    assert IsDigit(s[a + 2]);
    var j := DigitRunEnd(s, a + 2);
    RunCovers(s, a + 2, k);
    if k == c {
      RunStops(s, a + 2, c);
    } else if k < j {
      assert IsDigit(s[k]);
      RunStops(s, a + 2, c);
    } else {
      assert IsDigit(s[j + 1]);
      RunStops(s, j + 1, c);
    }
  }

  /** What the engine returns at a is a match of the pattern. */
  lemma MatchAtSound(s: string, a: nat)
    requires a <= |s|
    ensures MatchAt(s, a).Some? ==> MatchesAt(s, a, MatchAt(s, a).value)
  {
    if MatchAt(s, a).Some? {
      var c := CommaAt(s, a).value;
      var b := NumberEnd(s, c + 1);
      assert MatchAt(s, a).value == b;
      CommaAfterNumber(s, a);
      NumberEndMatches(s, c + 1);
      MatchesAtIntro(s, a, c, b);
    }
  }

  /** A comma with a number on either side after `t=` makes a match. */
  lemma MatchesAtIntro(s: string, a: nat, c: nat, b: nat)
    requires a + 2 < c < b <= |s| && s[a] == 't' && s[a + 1] == '=' && s[c] == ','
    requires NumberIn(s, a + 2, c) && NumberIn(s, c + 1, b)
    ensures MatchesAt(s, a, b)
  {
  }

  /** The engine's comma follows `t=` and a match of `[0-9]+(.([0-9]+))?`. */
  lemma CommaAfterNumber(s: string, a: nat)
    requires a <= |s| && CommaAt(s, a).Some?
    ensures s[a] == 't' && s[a + 1] == '=' && NumberIn(s, a + 2, CommaAt(s, a).value)
  {
    var c := CommaAt(s, a).value;
    var j := DigitRunEnd(s, a + 2);
    assert DigitsIn(s, a + 2, j);
    if c != j {
      assert DigitsIn(s, j + 1, c);
    }
  }

  /** Every match begun at a is found by the engine, which ends no earlier. */
  lemma MatchAtLongest(s: string, a: nat, b: int)
    requires a <= |s| && MatchesAt(s, a, b)
    ensures MatchAt(s, a).Some? && b <= MatchAt(s, a).value
  {
    var c := CandidateComma(s, a, b);
    EngineCommaReaches(s, a, c);
  }

  /** A match begun at a has its comma at one of the engine's two candidates, and its
      second number ends no later than the engine's number after that comma. */
  lemma CandidateComma(s: string, a: nat, b: int) returns (c: nat)
    requires a <= |s| && MatchesAt(s, a, b)
    ensures a + 2 < |s| && s[a] == 't' && s[a + 1] == '=' && IsDigit(s[a + 2])
    ensures c + 1 < |s| && s[c] == ',' && IsDigit(s[c + 1]) && b <= NumberEnd(s, c + 1)
    ensures var j := DigitRunEnd(s, a + 2);
      c == j || (j + 1 < |s| && DotMatches(s[j]) && IsDigit(s[j + 1]) && c == DigitRunEnd(s, j + 1))
  {
    c := MatchComma(s, a, b);
    CommaCandidates(s, a, c);
    NumberLongest(s, c + 1, b);
  }

  /** The comma of a match. */
  lemma MatchComma(s: string, a: nat, b: int) returns (c: nat)
    requires MatchesAt(s, a, b)
    ensures a + 2 < c < b && c < |s| && s[c] == ',' && NumberIn(s, a + 2, c) && NumberIn(s, c + 1, b)
  {
    c :| a + 2 < c < b && s[c] == ',' && NumberIn(s, a + 2, c) && NumberIn(s, c + 1, b);
  }

  /** Given the comma c of some match begun at a, the engine settles on c or on a later
      comma k, and then the number after c runs into k, so that the engine's match
      reaches at least as far as the number after c. */
  lemma EngineCommaReaches(s: string, a: nat, c: nat)
    requires a + 2 < |s| && s[a] == 't' && s[a + 1] == '=' && IsDigit(s[a + 2])
    requires c + 1 < |s| && s[c] == ',' && IsDigit(s[c + 1])
    requires var j := DigitRunEnd(s, a + 2);
      c == j || (j + 1 < |s| && DotMatches(s[j]) && IsDigit(s[j + 1]) && c == DigitRunEnd(s, j + 1))
    ensures MatchAt(s, a).Some? && NumberEnd(s, c + 1) <= MatchAt(s, a).value
  {
    var j := DigitRunEnd(s, a + 2);
    if c != j {
      // The engine tries this comma first.
      assert CommaAt(s, a) == Some(c);
      EngineTakesComma(s, a, c);
    } else {
      LaterComma(s, a, c);
    }
  }

  /** When the match's comma ends the first digit run, the engine takes either a later
      comma or this one. */
  lemma LaterComma(s: string, a: nat, c: nat)
    requires a + 2 < |s| && s[a] == 't' && s[a + 1] == '=' && IsDigit(s[a + 2])
    requires c + 1 < |s| && s[c] == ',' && IsDigit(s[c + 1]) && c == DigitRunEnd(s, a + 2)
    ensures MatchAt(s, a).Some? && NumberEnd(s, c + 1) <= MatchAt(s, a).value
  {
    var k := DigitRunEnd(s, c + 1);
    if k + 1 < |s| && s[k] == ',' && IsDigit(s[k + 1]) {
      LaterCommaTaken(s, a, c, k);
    } else {
      EngineTakesFirstComma(s, a, c);
      EngineTakesComma(s, a, c);
    }
  }

  /** When the engine takes the later comma k, the number after c runs into k, and the
      engine's match reaches past it. */
  lemma LaterCommaTaken(s: string, a: nat, c: nat, k: nat)
    requires a + 2 < |s| && s[a] == 't' && s[a + 1] == '=' && IsDigit(s[a + 2])
    requires c + 1 < |s| && s[c] == ',' && IsDigit(s[c + 1]) && c == DigitRunEnd(s, a + 2)
    requires k == DigitRunEnd(s, c + 1) && k + 1 < |s| && s[k] == ',' && IsDigit(s[k + 1])
    ensures MatchAt(s, a).Some? && NumberEnd(s, c + 1) <= MatchAt(s, a).value
  {
    EngineTakesLaterComma(s, a, c, k);
    EngineTakesComma(s, a, k);
    NumberRunsIntoComma(s, c + 1, k);
    NumberEndCovers(s, k + 1);
  }

  /** Without a later comma, the engine takes the comma that ends the first digit run. */
  lemma EngineTakesFirstComma(s: string, a: nat, c: nat)
    requires a + 2 < |s| && s[a] == 't' && s[a + 1] == '=' && IsDigit(s[a + 2])
    requires c + 1 < |s| && s[c] == ',' && IsDigit(s[c + 1]) && c == DigitRunEnd(s, a + 2)
    requires var k := DigitRunEnd(s, c + 1); !(k + 1 < |s| && s[k] == ',' && IsDigit(s[k + 1]))
    ensures CommaAt(s, a) == Some(c)
  {
    assert DotMatches(s[c]);
  }

  /** The engine takes the comma k that ends the digit run after the first comma. */
  lemma EngineTakesLaterComma(s: string, a: nat, c: nat, k: nat)
    requires a + 2 < |s| && s[a] == 't' && s[a + 1] == '=' && IsDigit(s[a + 2])
    requires c + 1 < |s| && s[c] == ',' && IsDigit(s[c + 1]) && c == DigitRunEnd(s, a + 2)
    requires k == DigitRunEnd(s, c + 1) && k + 1 < |s| && s[k] == ',' && IsDigit(s[k + 1])
    ensures CommaAt(s, a) == Some(k)
  {
    assert DotMatches(s[c]);
  }

  /** A number whose digit run ends at a comma followed by a digit takes the comma as its
      separator and ends where the digits after it end. */
  lemma NumberRunsIntoComma(s: string, p: nat, k: nat)
    requires p < |s| && IsDigit(s[p]) && k == DigitRunEnd(s, p)
    requires k + 1 < |s| && s[k] == ',' && IsDigit(s[k + 1])
    ensures NumberEnd(s, p) == DigitRunEnd(s, k + 1)
  {
    assert DotMatches(s[k]);
  }

  /** Once the engine settles on comma k, its match ends where the number after k ends. */
  lemma EngineTakesComma(s: string, a: nat, k: nat)
    requires a <= |s| && CommaAt(s, a) == Some(k)
    ensures MatchAt(s, a) == Some(NumberEnd(s, k + 1))
  {
  }

  /** The engine's number reaches at least to the end of its first digit run. */
  lemma NumberEndCovers(s: string, p: nat)
    requires p < |s| && IsDigit(s[p])
    ensures DigitRunEnd(s, p) <= NumberEnd(s, p)
  {
  }

  /** Search returns the leftmost start at which the pattern matches, with the longest
      match there; it returns None exactly when the pattern matches nowhere. */
  lemma {:induction false} SearchSpec(s: string, from: nat)
    requires from <= |s|
    ensures Search(s, from).Some? ==>
      var (a, b) := Search(s, from).value;
      && from <= a && MatchesAt(s, a, b)
      && (forall a', b' :: from <= a' < a ==> !MatchesAt(s, a', b'))
      && (forall b' :: MatchesAt(s, a, b') ==> b' <= b)
    ensures Search(s, from).None? ==> forall a', b' :: from <= a' ==> !MatchesAt(s, a', b')
    decreases |s| - from
  {
    var m := MatchAt(s, from);
    if m.Some? {
      assert Search(s, from) == Some((from, m.value));
      MatchAtSound(s, from);
      forall b | MatchesAt(s, from, b) ensures b <= m.value {
        MatchAtLongest(s, from, b);
      }
    } else if from == |s| {
      assert Search(s, from) == None;
    } else {
      assert Search(s, from) == Search(s, from + 1);
      NoMatchHere(s, from);
      SearchSpec(s, from + 1);
      if Search(s, from + 1).Some? {
        var a := Search(s, from + 1).value.0;
        forall a', b' | from <= a' < a ensures !MatchesAt(s, a', b') {
          if a' > from {
            assert from + 1 <= a' < a;
          }
        }
      } else {
        forall a', b' | from <= a' ensures !MatchesAt(s, a', b') {
          if a' > from {
            assert from + 1 <= a';
          }
        }
      }
    }
  }

  /** Where the engine finds nothing, the pattern matches nothing. */
  lemma NoMatchHere(s: string, a: nat)
    requires a <= |s| && MatchAt(s, a).None?
    ensures forall b :: !MatchesAt(s, a, b)
  {
    forall b | MatchesAt(s, a, b) ensures false {
      MatchAtLongest(s, a, b);
    }
  }

  /** The first match of the pattern in `s`, as (start, end), is the leftmost and,
      at its start, the longest; there is none exactly when the pattern matches nowhere. */
  lemma FirstMatchSpec(s: string)
    ensures Search(s, 0).Some? ==>
      var (a, b) := Search(s, 0).value;
      && a < b <= |s| && MatchesAt(s, a, b)
      && (forall a', b' :: a' < a ==> !MatchesAt(s, a', b'))
      && (forall b' :: MatchesAt(s, a, b') ==> b' <= b)
    ensures Search(s, 0).None? <==> forall a, b :: !MatchesAt(s, a, b)
  {
    SearchSpec(s, 0);
  }

  // ---------------------------------------------------------------------------
  // split(',') and parseFloat
  // ---------------------------------------------------------------------------

  /** The index of the first ',' in t, or |t| when there is none. */
  function FirstComma(t: string): (c: nat)
    ensures c <= |t|
    ensures forall x :: 0 <= x < c ==> t[x] != ','
    ensures c < |t| ==> t[c] == ','
  {
    if t == [] || t[0] == ',' then 0 else 1 + FirstComma(t[1..])
  }

  /** Any index with a comma and none before it is the first comma. */
  lemma {:induction false} FirstCommaIs(t: string, c: nat)
    requires c < |t| && t[c] == ',' && forall x :: 0 <= x < c ==> t[x] != ','
    ensures FirstComma(t) == c
  {
    if c > 0 {
      FirstCommaIs(t[1..], c - 1);
    }
  }

  /** The pieces joined back with commas. */
  function Join(pieces: seq<string>): string
    requires |pieces| > 0
  {
    if |pieces| == 1 then pieces[0] else pieces[0] + "," + Join(pieces[1..])
  }

  /** text.split(','): the pieces between commas, which join back into the text. */
  function Split(t: string): (pieces: seq<string>)
    ensures |pieces| > 0 && Join(pieces) == t
    ensures forall i, x :: 0 <= i < |pieces| && 0 <= x < |pieces[i]| ==> pieces[i][x] != ','
    decreases |t|
  {
    var c := FirstComma(t);
    if c == |t| then [t]
    else
      var rest := Split(t[c + 1..]);
      var pieces := [t[..c]] + rest;
      assert pieces[1..] == rest;
      assert t == t[..c] + "," + t[c + 1..];
      pieces
  }

  /** The first two pieces of a text with a comma: up to the first comma, and from
      there up to the next comma or the end. */
  lemma SplitHeads(t: string)
    requires FirstComma(t) < |t|
    ensures var c := FirstComma(t); var u := t[c + 1..];
      |Split(t)| >= 2 && Split(t)[0] == t[..c] && Split(t)[1] == u[..FirstComma(u)]
  {
    var u := t[FirstComma(t) + 1..];
    if FirstComma(u) < |u| {
      assert Split(u)[0] == u[..FirstComma(u)];
    }
  }

  /** x * 10^e for an integer exponent e, one factor of ten at a time. */
  function Scale(x: real, e: int): (r: real)
    ensures 0.0 <= x ==> 0.0 <= r
    decreases if e >= 0 then e else -e
  {
    if e == 0 then x
    else if e > 0 then 10.0 * Scale(x, e - 1)
    else Scale(x, e + 1) / 10.0
  }

  /** The value of the digit run that starts at i (0 when there is none). */
  function RunValue(p: string, i: nat): nat
    requires i <= |p|
  {
    var j := DigitRunEnd(p, i);
    assert AllDigits(p[i..j]) by {
      forall x | 0 <= x < j - i ensures IsDigit(p[i..j][x]) {
        assert p[i..j][x] == p[i + x];
      }
    }
    DigitsValue(p[i..j])
  }

  /** The exponent part `(e|E)[+|-]digits` at q, or 0 when the text there has none. */
  function ExponentAt(p: string, q: nat): int
    requires q <= |p|
  {
    if q < |p| && (p[q] == 'e' || p[q] == 'E') then
      var signed := q + 1 < |p| && (p[q + 1] == '+' || p[q + 1] == '-');
      var d := if signed then q + 2 else q + 1;
      if d < |p| && IsDigit(p[d]) then
        if signed && p[q + 1] == '-' then -(RunValue(p, d) as int) else RunValue(p, d)
      else 0
    else 0
  }

  /** The end of the numeric prefix `digits [. digits*]` that starts at 0. */
  function MantissaEnd(p: string): (q: nat)
    requires |p| > 0 && IsDigit(p[0])
    ensures 0 < q <= |p|
  {
    var i := DigitRunEnd(p, 0);
    if i < |p| && p[i] == '.' then DigitRunEnd(p, i + 1) else i
  }

  /** The value of the fraction digits `d` when there are n of them: d / 10^n. */
  function Fraction(d: nat, n: nat): (r: real)
    ensures 0.0 <= r
  {
    if n == 0 then d as real else Fraction(d, n - 1) / 10.0
  }

  /** The value of the `digits [. digits*]` prefix. */
  function Mantissa(p: string): (m: real)
    requires |p| > 0 && IsDigit(p[0])
    ensures 0.0 <= m
  {
    var i := DigitRunEnd(p, 0);
    if i < |p| && p[i] == '.' then
      RunValue(p, 0) as real + Fraction(RunValue(p, i + 1), DigitRunEnd(p, i + 1) - (i + 1))
    else RunValue(p, 0) as real
  }

  /** parseFloat of a text that starts with a digit: the value of its longest prefix of
      the form `digits [. digits*] [(e|E) [+|-] digits]`; what follows is ignored. */
  function ParseFloat(p: string): (v: real)
    requires |p| > 0 && IsDigit(p[0])
    ensures 0.0 <= v
  {
    Scale(Mantissa(p), ExponentAt(p, MantissaEnd(p)))
  }

  /** A digit run reads as its decimal value. */
  lemma ParseFloatDigits(w: string)
    requires |w| > 0 && AllDigits(w)
    ensures ParseFloat(w) == DigitsValue(w) as real
  {
    RunStopsAtEnd(w, 0);
    assert w[..|w|] == w;
  }

  /** A digit run covers the rest of a text of digits. */
  lemma RunStopsAtEnd(w: string, p: nat)
    requires p <= |w| && forall x :: p <= x < |w| ==> IsDigit(w[x])
    ensures DigitRunEnd(w, p) == |w|
  {
    RunCovers(w, p, |w|);
  }

  /** The decimal text JavaScript gives an integer reads back as that integer. */
  lemma ParseFloatOfDecimal(n: nat)
    ensures ParseFloat(NatToDecimal(n)) == n as real
  {
    DecimalRoundTrip(n);
    ParseFloatDigits(NatToDecimal(n));
  }

  /** A whole digit run ended by '.' and followed by digits to the end of the text: the
      mantissa is the whole run plus the fraction digits scaled down. */
  lemma MantissaWithFraction(p: string, i: nat)
    requires 0 < i < |p| && IsDigit(p[0]) && p[i] == '.'
    requires DigitRunEnd(p, 0) == i && DigitRunEnd(p, i + 1) == |p|
    ensures Mantissa(p) == RunValue(p, 0) as real + Fraction(RunValue(p, i + 1), |p| - i - 1)
  {
  }

  /** In `w.f` the whole digit run is w. */
  lemma WholeOfDecimal(w: string, f: string)
    requires |w| > 0 && AllDigits(w) && AllDigits(f)
    ensures var p := w + "." + f; DigitRunEnd(p, 0) == |w| && RunValue(p, 0) == DigitsValue(w)
  {
    var p := w + "." + f;
    assert DigitRunEnd(p, 0) == |w| by { RunStops(p, 0, |w|); }
    assert p[0..|w|] == w;
  }

  /** In `w.f` the digit run after the '.' is f, up to the end. */
  lemma FractionOfDecimal(w: string, f: string)
    requires |w| > 0 && AllDigits(w) && AllDigits(f)
    ensures var p := w + "." + f; DigitRunEnd(p, |w| + 1) == |p| && RunValue(p, |w| + 1) == DigitsValue(f)
  {
    var p := w + "." + f;
    assert DigitRunEnd(p, |w| + 1) == |p| by { RunStopsAtEnd(p, |w| + 1); }
    assert p[|w| + 1..|p|] == f;
  }

  /** The mantissa of `w.f` is w + f / 10^|f|, and it spans the whole text. */
  lemma MantissaOfDecimal(w: string, f: string)
    requires |w| > 0 && AllDigits(w) && AllDigits(f)
    ensures Mantissa(w + "." + f) == DigitsValue(w) as real + Fraction(DigitsValue(f), |f|)
    ensures MantissaEnd(w + "." + f) == |w| + 1 + |f|
  {
    WholeOfDecimal(w, f);
    FractionOfDecimal(w, f);
    MantissaWithFraction(w + "." + f, |w|);
  }

  /** A text that is all mantissa has no exponent part to scale it. */
  lemma ParseFloatNoExponent(p: string)
    requires |p| > 0 && IsDigit(p[0]) && MantissaEnd(p) == |p|
    ensures ParseFloat(p) == Mantissa(p)
  {
    assert ExponentAt(p, |p|) == 0;
  }

  /** `w.f` reads as w + f / 10^|f|. */
  lemma ParseFloatDecimal(w: string, f: string)
    requires |w| > 0 && AllDigits(w) && AllDigits(f)
    ensures ParseFloat(w + "." + f) == DigitsValue(w) as real + Fraction(DigitsValue(f), |f|)
  {
    MantissaOfDecimal(w, f);
    ParseFloatNoExponent(w + "." + f);
  }

  /** A separator other than '.', 'e' or 'E' after the whole digits ends the number:
      parseFloat reads only the digits before it. */
  lemma ParseFloatStopsAtSeparator(w: string, sep: char, rest: string)
    requires |w| > 0 && AllDigits(w) && !IsDigit(sep) && sep != '.' && sep != 'e' && sep != 'E'
    ensures ParseFloat(w + [sep] + rest) == DigitsValue(w) as real
  {
    var p := w + [sep] + rest;
    RunStops(p, 0, |w|);
    assert p[..|w|] == w;
  }

  // ---------------------------------------------------------------------------
  // The range in a hash
  // ---------------------------------------------------------------------------

  /** The first comma of the matched text after `t=` comes before its end and is
      followed by a digit, and the text starts with a digit. */
  lemma MatchedPieces(s: string, a: nat, b: nat)
    requires a <= |s| && MatchAt(s, a) == Some(b)
    ensures a + 2 < b <= |s|
    ensures var t := s[a + 2..b]; var c := FirstComma(t);
      && IsDigit(t[0]) && 0 < c && c + 1 < |t| && IsDigit(t[c + 1])
  {
    var f := MatchFirstComma(s, a, b);
    var t := s[a + 2..b];
    assert t[f - (a + 2)] == ',';
    FirstCommaIs(t, f - (a + 2));
  }

  /** The first comma after the `t=` of a match: digits (and at most one other
      separator) come before it, and a digit after it. */
  lemma MatchFirstComma(s: string, a: nat, b: nat) returns (f: nat)
    requires a <= |s| && MatchAt(s, a) == Some(b)
    ensures a + 2 < f && f + 1 < b <= |s| && s[f] == ',' && IsDigit(s[f + 1]) && IsDigit(s[a + 2])
    ensures forall x :: a + 2 <= x < f ==> s[x] != ','
  {
    var c := CommaAt(s, a).value;
    assert b == NumberEnd(s, c + 1);
    var j := DigitRunEnd(s, a + 2);
    if s[j] == ',' {
      f := j;
      assert j + 1 < |s| && IsDigit(s[j + 1]) by {
        if c != j { assert c == DigitRunEnd(s, j + 1); }
      }
      assert j <= c;
    } else {
      f := c;
      assert c == DigitRunEnd(s, j + 1);
      assert forall x :: j < x < c ==> IsDigit(s[x]);
    }
  }

  /** The start and the length read from the first two pieces of the matched text: the
      first piece read by parseFloat is the start, and the second piece's value minus
      the first's is the length. */
  function PiecesRange(first: string, second: string): (r: (real, real))
    requires |first| > 0 && IsDigit(first[0]) && |second| > 0 && IsDigit(second[0])
    ensures 0.0 <= r.0 && 0.0 <= r.0 + r.1
  {
    var start := ParseFloat(first);
    (start, ParseFloat(second) - start)
  }

  /** The range read from the matched text after its `t=`, split at commas. */
  function TimesRange(t: string): (r: (real, real))
    requires |t| > 0 && IsDigit(t[0])
    requires 0 < FirstComma(t) && FirstComma(t) + 1 < |t| && IsDigit(t[FirstComma(t) + 1])
    ensures 0.0 <= r.0 && 0.0 <= r.0 + r.1
  {
    var times := Split(t);
    SplitHeads(t);
    PiecesRange(times[0], times[1])
  }

  /** The start and the length of the range matched at s[a..b]. */
  function RangeIn(s: string, a: nat, b: nat): (r: (real, real))
    requires a <= |s| && MatchAt(s, a) == Some(b)
    ensures 0.0 <= r.0 && 0.0 <= r.0 + r.1
  {
    MatchedPieces(s, a, b);
    TimesRange(s[a + 2..b])
  }

  /** The text of a number written `w`, or `w.f` when there are fraction digits f. */
  function DecimalText(w: string, f: string): string {
    if f == [] then w else w + "." + f
  }

  /** Whether `w` or `w.f` writes a number: w is a non-empty digit run, f a digit run. */
  predicate IsDecimal(w: string, f: string) { |w| > 0 && AllDigits(w) && AllDigits(f) }

  /** The value of the number written `w.f`: w + f / 10^|f|. */
  function DecimalNumber(w: string, f: string): real
    requires IsDecimal(w, f)
  {
    DigitsValue(w) as real + Fraction(DigitsValue(f), |f|)
  }

  /** d is the text of one number of a range: it starts with a digit, holds no comma
      and parseFloat reads it as v. */
  predicate ReadsAs(d: string, v: real) {
    |d| > 0 && IsDigit(d[0]) && (forall x :: 0 <= x < |d| ==> d[x] != ',') && ParseFloat(d) == v
  }

  /** parseFloat reads `w` and `w.f` as their decimal values; neither text has a comma. */
  lemma ParseFloatDecimalText(w: string, f: string)
    requires IsDecimal(w, f)
    ensures ReadsAs(DecimalText(w, f), DecimalNumber(w, f))
  {
    if f == [] {
      ParseFloatDigits(w);
      assert Fraction(DigitsValue(f), |f|) == 0.0;
    } else {
      ParseFloatDecimal(w, f);
      var d := w + "." + f;
      forall x | 0 <= x < |d| ensures d[x] != ',' {
        if x < |w| { assert d[x] == w[x]; } else if x > |w| { assert d[x] == f[x - |w| - 1]; }
      }
    }
  }

  /** A match `t=<d1>,<d2>` whose pieces read as v1 and v2 gives the range (v1, v2 - v1). */
  lemma RangeOfPieces(s: string, a: nat, b: nat, d1: string, d2: string, v1: real, v2: real)
    requires a <= b <= |s| && MatchAt(s, a) == Some(b)
    requires s[a..b] == "t=" + (d1 + "," + d2)
    requires ReadsAs(d1, v1) && ReadsAs(d2, v2)
    ensures RangeIn(s, a, b) == (v1, v2 - v1)
  {
    var t := s[a + 2..b];
    assert |t| > 0 && IsDigit(t[0]) && 0 < FirstComma(t) && FirstComma(t) + 1 < |t|
      && IsDigit(t[FirstComma(t) + 1]) && RangeIn(s, a, b) == TimesRange(t) by {
      RangeInReadsTimes(s, a, b, t);
    }
    assert t == d1 + "," + d2 by {
      AfterPrefix(s, a, b, d1 + "," + d2);
    }
    TimesOfPieces(t, d1, d2, v1, v2);
  }

  /** For every match, the range is read from the first two comma-separated pieces of
      the text after `t=`, whatever the pieces hold: the start is the first piece's value
      and the length the second's minus the first's. A third piece, which the pattern
      lets through where its `.` takes a comma (`t=1,2,3`), is ignored. */
  lemma RangeOfSplit(s: string, a: nat, b: nat)
    requires a <= |s| && MatchAt(s, a) == Some(b)
    ensures a + 2 <= b <= |s| && HeadsStartWithDigits(Split(s[a + 2..b]))
    ensures RangeIn(s, a, b) == PiecesRange(Split(s[a + 2..b])[0], Split(s[a + 2..b])[1])
  {
    MatchedPieces(s, a, b);
    RangeInReadsTimes(s, a, b, s[a + 2..b]);
    TimesRangeOfSplit(s[a + 2..b]);
  }

  /** TimesRange reads the first two pieces of the text, which start with digits. */
  lemma TimesRangeOfSplit(t: string)
    requires |t| > 0 && IsDigit(t[0])
    requires 0 < FirstComma(t) && FirstComma(t) + 1 < |t| && IsDigit(t[FirstComma(t) + 1])
    ensures HeadsStartWithDigits(Split(t)) && TimesRange(t) == PiecesRange(Split(t)[0], Split(t)[1])
  {
    SplitHeads(t);
  }

  /** There are at least two pieces, and the first two each start with a digit. */
  predicate HeadsStartWithDigits(pieces: seq<string>) {
    && |pieces| >= 2
    && |pieces[0]| > 0 && IsDigit(pieces[0][0])
    && |pieces[1]| > 0 && IsDigit(pieces[1][0])
  }

  /** RangeIn reads the matched text after its `t=`. */
  lemma RangeInReadsTimes(s: string, a: nat, b: nat, t: string)
    requires a <= |s| && MatchAt(s, a) == Some(b) && a + 2 <= b <= |s| && t == s[a + 2..b]
    ensures |t| > 0 && IsDigit(t[0])
    ensures 0 < FirstComma(t) && FirstComma(t) + 1 < |t| && IsDigit(t[FirstComma(t) + 1])
    ensures RangeIn(s, a, b) == TimesRange(t)
  {
    MatchedPieces(s, a, b);
  }


  /** Two comma-free pieces that read as v1 and v2, joined by a comma, give the
      range (v1, v2 - v1). */
  lemma TimesOfPieces(t: string, d1: string, d2: string, v1: real, v2: real)
    requires t == d1 + "," + d2
    requires ReadsAs(d1, v1) && ReadsAs(d2, v2)
    ensures |t| > 0 && IsDigit(t[0])
    ensures 0 < FirstComma(t) && FirstComma(t) + 1 < |t| && IsDigit(t[FirstComma(t) + 1])
    ensures TimesRange(t) == (v1, v2 - v1)
  {
    SplitOfPieces(t, d1, d2);
    PiecesRangeReads(d1, d2, v1, v2);
  }

  /** Pieces that read as v1 and v2 give the range (v1, v2 - v1). */
  lemma PiecesRangeReads(d1: string, d2: string, v1: real, v2: real)
    requires ReadsAs(d1, v1) && ReadsAs(d2, v2)
    ensures PiecesRange(d1, d2) == (v1, v2 - v1)
  {
  }

  /** What follows the `t=` of s[a..b]. */
  lemma AfterPrefix(s: string, a: nat, b: nat, d: string)
    requires a <= b <= |s| && s[a..b] == "t=" + d
    ensures s[a + 2..b] == d
  {
    assert s[a + 2..b] == s[a..b][2..];
  }

  /** Splitting `d1,d2`, with no comma in either, gives d1 and d2 first. */
  lemma SplitOfPieces(t: string, d1: string, d2: string)
    requires t == d1 + "," + d2
    requires forall x :: 0 <= x < |d1| ==> d1[x] != ','
    requires forall x :: 0 <= x < |d2| ==> d2[x] != ','
    ensures FirstComma(t) == |d1|
    ensures |Split(t)| >= 2 && Split(t)[0] == d1 && Split(t)[1] == d2
  {
    assert forall x :: 0 <= x < |d1| ==> t[x] == d1[x];
    FirstCommaIs(t, |d1|);
    assert t[|d1| + 1..] == d2;
    FirstCommaAbsent(d2);
    SplitHeads(t);
    assert d2[..|d2|] == d2;
  }

  /** The range in the hash's first match of the pattern; None when there is none. */
  function FragmentRange(hash: string): Option<(real, real)> {
    SearchMatchAt(hash, 0);
    match Search(hash, 0)
    case None => None
    case Some((a, b)) => Some(RangeIn(hash, a, b))
  }

  /** When the hash's first match reads `t=<d1>,<d2>` and parseFloat reads the pieces
      as v1 and v2, the range starts at v1 and lasts v2 - v1. */
  lemma FragmentRangeOfPieces(hash: string, a: nat, b: nat, d1: string, d2: string, v1: real, v2: real)
    requires Search(hash, 0) == Some((a, b)) && a <= b <= |hash|
    requires hash[a..b] == "t=" + (d1 + "," + d2)
    requires ReadsAs(d1, v1) && ReadsAs(d2, v2)
    ensures FragmentRange(hash) == Some((v1, v2 - v1))
  {
    SearchMatchAt(hash, 0);
    RangeOfPieces(hash, a, b, d1, d2, v1, v2);
  }

  /** For every hash whose first match is s[a..b], the range is read from the first two
      comma-separated pieces after its `t=`. */
  lemma FragmentRangeOfSplit(hash: string, a: nat, b: nat)
    requires Search(hash, 0) == Some((a, b))
    ensures a + 2 <= b <= |hash| && HeadsStartWithDigits(Split(hash[a + 2..b]))
    ensures FragmentRange(hash) == Some(PiecesRange(Split(hash[a + 2..b])[0], Split(hash[a + 2..b])[1]))
  {
    SearchMatchAt(hash, 0);
    RangeOfSplit(hash, a, b);
  }

  /** A hash yields a range exactly when the pattern matches somewhere in it. */
  lemma FragmentRangeFound(hash: string)
    ensures FragmentRange(hash).Some? <==> exists a, b :: MatchesAt(hash, a, b)
  {
    FirstMatchSpec(hash);
  }

  /** What Search returns is what the engine finds at that start. */
  lemma {:induction false} SearchMatchAt(s: string, from: nat)
    requires from <= |s|
    ensures Search(s, from).Some? ==>
      Search(s, from).value.0 <= |s| && MatchAt(s, Search(s, from).value.0) == Some(Search(s, from).value.1)
    decreases |s| - from
  {
    if MatchAt(s, from).None? && from < |s| {
      SearchMatchAt(s, from + 1);
    }
  }

  // ---------------------------------------------------------------------------
  // The fragment
  // ---------------------------------------------------------------------------

  /** How a call of load ends: no range in the hash, a warning because the player has a
      custom duration, or the range loaded. */
  datatype LoadOutcome = NoFragment | CustomDurationConflict | Loaded

  /** The MediaFragment of a player. The player's media duration, its `duration`, its
      `config.duration` and the hash of its source are passed to the methods that read
      them; the reset of the player's `config.startTime` is returned as a flag. */
  class MediaFragment {
    /** config.mediaFragment.enabled */
    const enabled: bool
    var active: bool
    var startTime: real
    var duration: real

    /** A new fragment is inactive, starts at 0 and takes the media's duration. */
    constructor (enabled: bool, mediaDuration: real)
      ensures this.enabled == enabled && !active && startTime == 0.0 && duration == mediaDuration
    {
      this.enabled := enabled;
      active := false;
      startTime := 0.0;
      duration := mediaDuration;
    }

    /** Local time shifted to media time: by startTime while enabled and active, not at
        all otherwise. */
    function GetMediaTime(input: real): (t: real)
      reads this
      ensures !enabled || !active ==> t == input
      ensures enabled && active ==> t - input == startTime
    {
      if !enabled || !active then input else input + startTime
    }

    /** load(): looks for the range in `hash`; refuses it when the player has a custom
        duration; otherwise activates the fragment with the range's start and length
        clamped into [0, mediaDuration]. */
    method Load(hash: string, hasCustomDuration: bool, mediaDuration: real) returns (outcome: LoadOutcome)
      modifies this
      ensures FragmentRange(hash).None? ==> outcome == NoFragment && unchanged(this)
      ensures FragmentRange(hash).Some? && hasCustomDuration ==>
        outcome == CustomDurationConflict && unchanged(this)
      ensures FragmentRange(hash).Some? && !hasCustomDuration ==>
        && outcome == Loaded && active
        && startTime == Clamp(FragmentRange(hash).value.0, 0.0, mediaDuration)
        && duration == Clamp(FragmentRange(hash).value.1, 0.0, mediaDuration)
      ensures outcome == Loaded && 0.0 <= mediaDuration ==>
        0.0 <= startTime <= mediaDuration && 0.0 <= duration <= mediaDuration
    {
      var range := FragmentRange(hash);
      if range.None? {
        return NoFragment;
      }
      if hasCustomDuration {
        return CustomDurationConflict;
      }
      active := true;
      startTime := Clamp(range.value.0, 0.0, mediaDuration);
      duration := Clamp(range.value.1, 0.0, mediaDuration);
      outcome := Loaded;
    }

    /** The `loadedmetadata` handler: loads only when the player has a (non-zero)
        duration and the fragment is not active yet, so an active fragment is never
        read again. None when it does not load. */
    method OnLoadedMetadata(hash: string, playerDuration: real, hasCustomDuration: bool, mediaDuration: real)
      returns (outcome: Option<LoadOutcome>)
      modifies this
      ensures playerDuration == 0.0 || old(active) ==> outcome == None && unchanged(this)
      ensures playerDuration != 0.0 && !old(active) ==> outcome.Some?
      ensures outcome == Some(Loaded) ==>
        && active && FragmentRange(hash).Some?
        && startTime == Clamp(FragmentRange(hash).value.0, 0.0, mediaDuration)
        && duration == Clamp(FragmentRange(hash).value.1, 0.0, mediaDuration)
      ensures outcome != Some(Loaded) ==> unchanged(this)
    {
      if playerDuration != 0.0 && !active {
        var o := Load(hash, hasCustomDuration, mediaDuration);
        outcome := Some(o);
      } else {
        outcome := None;
      }
    }

    /** destroy(): when enabled, deactivates the fragment and asks for the player's
        `config.startTime` to be reset to 0; when disabled, does nothing. */
    method Destroy() returns (resetConfigStartTime: bool)
      modifies this
      ensures resetConfigStartTime == enabled
      ensures enabled ==> !active && startTime == old(startTime) && duration == old(duration)
      ensures !enabled ==> unchanged(this)
    {
      if !enabled {
        return false;
      }
      active := false;
      resetConfigStartTime := true;
    }
  }

  /** In `t=10,50` the pattern matches the whole text. */
  lemma SearchTenToFifty()
    ensures Search("t=10,50", 0) == Some((0, 7))
  {
    var s := "t=10,50";
    RunStops(s, 2, 4);
    RunStopsAtEnd(s, 5);
    assert CommaAt(s, 0) == Some(4);
    assert NumberEnd(s, 5) == 7;
  }

  /** In `t=1😀2,3` the character between 1 and 2 lies outside the Basic Multilingual
      Plane: `.` takes only its first code unit, no digit follows, and the hash holds
      no range. */
  lemma FragmentRangeAstralSeparator()
    ensures FragmentRange("t=1\U{1F600}2,3") == None
  {
    var s := "t=1\U{1F600}2,3";
    assert DigitRunEnd(s, 2) == 3;
    assert MatchAt(s, 0) == None;
    assert Search(s, 1) == None;
  }

  /** `10,50` splits into `10` and `50`. */
  lemma SplitTenToFifty()
    ensures |Split("10,50")| >= 2 && Split("10,50")[0] == "10" && Split("10,50")[1] == "50"
  {
    var t := "10,50";
    FirstCommaIs(t, 2);
    assert t[3..] == "50";
    FirstCommaAbsent("50");
    SplitHeads(t);
  }

  /** A two-digit text reads as its value. */
  lemma ParseFloatTwoDigits(t: string)
    requires |t| == 2 && AllDigits(t)
    ensures ParseFloat(t) == (10 * DigitValue(t[0]) + DigitValue(t[1])) as real
  {
    ParseFloatDigits(t);
    assert t[..|t| - 1] == [t[0]];
    assert DigitsValue([t[0]]) == DigitValue(t[0]) by {
      assert [t[0]][..0] == [];
    }
    assert DigitsValue(t) == DigitsValue([t[0]]) * 10 + DigitValue(t[1]);
  }

  /** `10,50` splits into `10` and `50`, which read as 10 and 50. */
  lemma PiecesTenToFifty()
    ensures |Split("10,50")| >= 2
    ensures ParseFloat(Split("10,50")[0]) == 10.0 && ParseFloat(Split("10,50")[1]) == 50.0
  {
    SplitTenToFifty();
    ParseFloatTwoDigits("10");
    ParseFloatTwoDigits("50");
  }

  /** A hash holding `t=10,50` gives the range starting at 10 and lasting 40 seconds. */
  lemma FragmentRangeTenToFifty()
    ensures FragmentRange("t=10,50") == Some((10.0, 40.0))
  {
    var s := "t=10,50";
    SearchTenToFifty();
    SearchMatchAt(s, 0);
    assert s[2..7] == "10,50";
    PiecesTenToFifty();
  }

  /** A text without a comma has its first comma at its end. */
  lemma {:induction false} FirstCommaAbsent(t: string)
    requires forall x :: 0 <= x < |t| ==> t[x] != ','
    ensures FirstComma(t) == |t|
  {
    if t != [] {
      assert t[0] != ',';
      FirstCommaAbsent(t[1..]);
    }
  }

  /** With the media 120 seconds long and `t=10,50` in the hash, an enabled fragment
      loads start 10 and duration 40, and local time 5 is media time 15. */
  method TenToFiftyScenario() returns (f: MediaFragment, outcome: LoadOutcome)
    ensures outcome == Loaded && f.active && f.startTime == 10.0 && f.duration == 40.0
    ensures f.GetMediaTime(5.0) == 15.0
  {
    f := new MediaFragment(true, 120.0);
    FragmentRangeTenToFifty();
    outcome := f.Load("t=10,50", false, 120.0);
  }
}
