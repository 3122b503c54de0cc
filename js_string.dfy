/**
 * The JavaScript string built-ins the leaderboard pipeline relies on:
 * `trim`, ASCII case mapping, `startsWith`, `includes`, `split`, `parseInt`
 * and the decimal rendering of a number in a template string.
 */
module JsString {
  import opened Wrappers

  /** The WhiteSpace and LineTerminator code points that `String.prototype.trim` removes. */
  predicate IsWhitespace(c: char) {
    c == '\t' || c == '\n' || c == '\U{000B}' || c == '\U{000C}' || c == '\r' || c == ' '
    || c == '\U{00A0}' || c == '\U{1680}' || ('\U{2000}' <= c <= '\U{200A}')
    || c == '\U{2028}' || c == '\U{2029}' || c == '\U{202F}' || c == '\U{205F}'
    || c == '\U{3000}' || c == '\U{FEFF}'
  }

  predicate IsTrimmed(s: string) {
    s == [] || (!IsWhitespace(s[0]) && !IsWhitespace(s[|s| - 1]))
  }

  predicate AllWhitespace(s: string) {
    forall i :: 0 <= i < |s| ==> IsWhitespace(s[i])
  }

  /** `trimStart`: drops leading whitespace. */
  function TrimStart(s: string): (r: string)
    ensures |r| <= |s|
    ensures r == [] || !IsWhitespace(r[0])
  {
    if s != [] && IsWhitespace(s[0]) then TrimStart(s[1..]) else s
  }

  /** `trimEnd`: drops trailing whitespace. */
  function TrimEnd(s: string): (r: string)
    ensures |r| <= |s|
    ensures r == [] || !IsWhitespace(r[|r| - 1])
  {
    if s != [] && IsWhitespace(s[|s| - 1]) then TrimEnd(s[..|s| - 1]) else s
  }

  lemma AllWhitespaceConcat(a: string, b: string)
    requires AllWhitespace(a) && AllWhitespace(b)
    ensures AllWhitespace(a + b)
  {
    forall i | 0 <= i < |a + b| ensures IsWhitespace((a + b)[i]) {
      if i >= |a| {
        assert (a + b)[i] == b[i - |a|];
      }
    }
  }

  /** `trimStart` keeps a suffix and drops only whitespace. */
  lemma {:induction false} TrimStartDropsWhitespace(s: string)
    ensures var t := TrimStart(s);
      t == s[|s| - |t|..] && AllWhitespace(s[..|s| - |t|])
  {
    if s != [] && IsWhitespace(s[0]) {
      var t := TrimStart(s);
      var u := s[1..];
      var k := |s| - |t|;
      assert t == TrimStart(u);
      TrimStartDropsWhitespace(u);
      assert t == s[k..] by {
        assert u[k - 1..] == s[k..];
      }
      assert AllWhitespace(s[..k]) by {
        assert s[..k] == [s[0]] + u[..k - 1];
        AllWhitespaceConcat([s[0]], u[..k - 1]);
      }
    }
  }

  /** `trimEnd` keeps a prefix and drops only whitespace. */
  lemma {:induction false} TrimEndDropsWhitespace(s: string)
    ensures var r := TrimEnd(s);
      s == r + s[|r|..] && AllWhitespace(s[|r|..])
  {
    if s != [] && IsWhitespace(s[|s| - 1]) {
      var r := TrimEnd(s);
      var u := s[..|s| - 1];
      TrimEndDropsWhitespace(u);
      var w := u[|r|..];
      assert u == r + w;
      assert s == u + [s[|s| - 1]];
      assert s[|r|..] == w + [s[|s| - 1]];
      AllWhitespaceConcat(w, [s[|s| - 1]]);
    } else {
      assert s[|s|..] == [];
    }
  }

  /** `String.prototype.trim`. */
  function Trim(s: string): (r: string)
    ensures IsTrimmed(r)
  {
    var t := TrimStart(s);
    TrimEndDropsWhitespace(t);
    assert TrimEnd(t) != [] ==> TrimEnd(t)[0] == t[0];
    TrimEnd(t)
  }

  /** `trim` cuts `s` into leading whitespace, the result, and trailing whitespace. */
  lemma {:induction false} TrimParts(s: string)
    ensures var t := TrimStart(s);
      && s == s[..|s| - |t|] + Trim(s) + t[|Trim(s)|..]
      && AllWhitespace(s[..|s| - |t|]) && AllWhitespace(t[|Trim(s)|..])
  {
    var t := TrimStart(s);
    var r := TrimEnd(t);
    assert r == Trim(s);
    var lead, trail := s[..|s| - |t|], t[|r|..];
    assert s == lead + t && AllWhitespace(lead) by {
      TrimStartDropsWhitespace(s);
      assert s == s[..|s| - |t|] + s[|s| - |t|..];
    }
    assert t == r + trail && AllWhitespace(trail) by {
      TrimEndDropsWhitespace(t);
    }
    ConcatAssociates(lead, r, trail);
  }

  lemma ConcatAssociates(a: string, b: string, c: string)
    ensures a + (b + c) == a + b + c
  {
  }

  /** What `trim` keeps is part of `s`, and nothing is kept only when `s` is all whitespace. */
  lemma {:induction false} TrimKeeps(s: string)
    ensures multiset(Trim(s)) <= multiset(s)
    ensures Trim(s) == [] <==> AllWhitespace(s)
  {
    var t := TrimStart(s);
    var r := Trim(s);
    var lead, trail := s[..|s| - |t|], t[|r|..];
    TrimParts(s);
    assert multiset(s) == multiset(lead) + multiset(r) + multiset(trail);
    if r == [] {
      assert s == lead + trail;
      AllWhitespaceConcat(lead, trail);
    } else {
      assert s[|lead|] == r[0];
    }
  }

  lemma TrimOfTrimmed(s: string)
    requires IsTrimmed(s)
    ensures Trim(s) == s
  {
  }

  // ---------------------------------------------------------------- ASCII case

  predicate IsAsciiUpper(c: char) { 'A' <= c <= 'Z' }
  predicate IsAsciiLower(c: char) { 'a' <= c <= 'z' }
  predicate IsAsciiLetter(c: char) { IsAsciiUpper(c) || IsAsciiLower(c) }
  predicate IsAsciiDigit(c: char) { '0' <= c <= '9' }

  function LowerChar(c: char): (r: char)
    ensures !IsAsciiUpper(r)
    ensures IsAsciiLetter(c) <==> IsAsciiLetter(r)
  {
    if IsAsciiUpper(c) then (c as int + 32) as char else c
  }

  function UpperChar(c: char): (r: char)
    ensures !IsAsciiLower(r)
    ensures IsAsciiLetter(c) <==> IsAsciiLetter(r)
  {
    if IsAsciiLower(c) then (c as int - 32) as char else c
  }

  /** `toLowerCase`, on ASCII letters. */
  function ToLower(s: string): (r: string)
    ensures |r| == |s|
    ensures forall i :: 0 <= i < |s| ==> r[i] == LowerChar(s[i])
  {
    seq(|s|, i requires 0 <= i < |s| => LowerChar(s[i]))
  }

  /** `toUpperCase`, on ASCII letters. */
  function ToUpper(s: string): (r: string)
    ensures |r| == |s|
    ensures forall i :: 0 <= i < |s| ==> r[i] == UpperChar(s[i])
  {
    seq(|s|, i requires 0 <= i < |s| => UpperChar(s[i]))
  }

  lemma ToLowerIdempotent(s: string)
    ensures ToLower(ToLower(s)) == ToLower(s)
  {
  }

  /** Case-insensitive equality, as a regular expression with the `i` flag compares. */
  predicate CiEquals(s: string, p: string) {
    ToLower(s) == ToLower(p)
  }

  // ---------------------------------------------------------------- searching

  predicate StartsWith(s: string, p: string) {
    |p| <= |s| && s[..|p|] == p
  }

  /** `String.prototype.includes`. */
  predicate Contains(s: string, p: string)
    decreases |s|
  {
    StartsWith(s, p) || (s != [] && Contains(s[1..], p))
  }

  /** `p` occurs in `s` starting at position `i`. */
  predicate OccursAt(s: string, p: string, i: int) {
    0 <= i && i + |p| <= |s| && s[i..i + |p|] == p
  }

  /** `includes` holds exactly when `p` occurs at some position of `s`. */
  lemma {:induction false} ContainsIsOccurrence(s: string, p: string)
    ensures Contains(s, p) <==> exists i :: OccursAt(s, p, i)
    decreases |s|
  {
    if StartsWith(s, p) {
      assert s[0..|p|] == p;
      assert OccursAt(s, p, 0);
    }
    if s == [] {
      if exists i :: OccursAt(s, p, i) {
        var i :| OccursAt(s, p, i);
        assert s[..|p|] == s[i..i + |p|];
      }
    } else {
      var t := s[1..];
      ContainsIsOccurrence(t, p);
      if Contains(t, p) {
        var j :| OccursAt(t, p, j);
        assert s[j + 1..j + 1 + |p|] == t[j..j + |p|];
        assert OccursAt(s, p, j + 1);
      }
      if exists i :: OccursAt(s, p, i) {
        var i :| OccursAt(s, p, i);
        if i > 0 {
          assert t[i - 1..i - 1 + |p|] == s[i..i + |p|];
          assert OccursAt(t, p, i - 1);
        } else {
          assert s[..|p|] == s[i..i + |p|];
        }
      }
    }
  }

  // ---------------------------------------------------------------- split / join

  function Count(s: string, c: char): nat {
    multiset(s)[c]
  }

  /** `s.split(sep)` for a one-character separator. */
  function Split(s: string, sep: char): (parts: seq<string>)
    ensures parts != []
  {
    if s == [] then [""]
    else
      var rest := Split(s[1..], sep);
      if s[0] == sep then [""] + rest
      else [[s[0]] + rest[0]] + rest[1..]
  }

  /** One part more than there are separators. */
  lemma {:induction false} SplitCount(s: string, sep: char)
    ensures |Split(s, sep)| == 1 + Count(s, sep)
  {
    if s != [] {
      SplitCount(s[1..], sep);
      assert s == [s[0]] + s[1..];
      assert multiset(s) == multiset{s[0]} + multiset(s[1..]);
    }
  }

  /** No part holds the separator. */
  lemma {:induction false} SplitPartsHaveNoSeparator(s: string, sep: char)
    ensures forall i :: 0 <= i < |Split(s, sep)| ==> sep !in Split(s, sep)[i]
  {
    if s != [] {
      SplitPartsHaveNoSeparator(s[1..], sep);
      var rest := Split(s[1..], sep);
      var parts := Split(s, sep);
      if s[0] != sep {
        assert parts[0] == [s[0]] + rest[0];
        forall i | 1 <= i < |parts| ensures parts[i] == rest[i] {
        }
      } else {
        forall i | 1 <= i < |parts| ensures parts[i] == rest[i - 1] {
        }
      }
    }
  }

  /** `parts.join(sep)`: the inverse of `Split`. */
  function Join(parts: seq<string>, sep: char): string
    requires parts != []
  {
    if |parts| == 1 then parts[0] else parts[0] + [sep] + Join(parts[1..], sep)
  }

  lemma {:induction false} JoinSplit(s: string, sep: char)
    ensures Join(Split(s, sep), sep) == s
  {
    if s != [] {
      var c, t := s[0], s[1..];
      assert s == [c] + t;
      JoinSplit(t, sep);
      var rest := Split(t, sep);
      var parts := Split(s, sep);
      if c == sep {
        assert parts == [""] + rest;
        assert parts[1..] == rest;
        assert Join(parts, sep) == "" + [sep] + Join(rest, sep);
      } else {
        assert parts == [[c] + rest[0]] + rest[1..];
        if |rest| == 1 {
          assert Join(parts, sep) == [c] + rest[0];
        } else {
          assert parts[1..] == rest[1..];
          assert Join(rest, sep) == rest[0] + [sep] + Join(rest[1..], sep);
          assert Join(parts, sep) == ([c] + rest[0]) + [sep] + Join(rest[1..], sep);
        }
      }
    }
  }

  // ---------------------------------------------------------------- numbers

  function DigitValue(c: char): (d: nat)
    requires IsAsciiDigit(c)
    ensures d < 10
  {
    c as int - '0' as int
  }

  function DigitChar(d: nat): (c: char)
    requires d < 10
    ensures IsAsciiDigit(c) && DigitValue(c) == d
  {
    ('0' as int + d) as char
  }

  predicate AllDigits(s: string) {
    forall i :: 0 <= i < |s| ==> IsAsciiDigit(s[i])
  }

  /** The decimal rendering of a non-negative integer, as `${n}` prints it. */
  function NatToString(n: nat): (s: string)
    ensures s != [] && AllDigits(s)
    ensures s[0] == '0' ==> n == 0
  {
    if n < 10 then [DigitChar(n)] else NatToString(n / 10) + [DigitChar(n % 10)]
  }

  /** The value of a run of decimal digits, most significant first. */
  function DecimalValue(s: string): nat
    requires AllDigits(s)
  {
    if s == [] then 0 else DecimalValue(s[..|s| - 1]) * 10 + DigitValue(s[|s| - 1])
  }

  lemma {:induction false} DecimalOfNatToString(n: nat)
    ensures DecimalValue(NatToString(n)) == n
  {
    var s := NatToString(n);
    if n >= 10 {
      DecimalOfNatToString(n / 10);
      assert s[..|s| - 1] == NatToString(n / 10);
    }
  }

  predicate IsHexDigit(c: char) {
    IsAsciiDigit(c) || ('a' <= c <= 'f') || ('A' <= c <= 'F')
  }

  function HexValue(c: char): (d: nat)
    requires IsHexDigit(c)
    ensures d < 16
  {
    if IsAsciiDigit(c) then DigitValue(c)
    else if 'a' <= c <= 'f' then c as int - 'a' as int + 10
    else c as int - 'A' as int + 10
  }

  /** A digit of radix 16 when `hex`, of radix 10 otherwise. */
  predicate IsRadixDigit(c: char, hex: bool) {
    if hex then IsHexDigit(c) else IsAsciiDigit(c)
  }

  /** The value of a run of digits in radix 10 or 16, most significant first. */
  function RadixValue(s: string, hex: bool): nat
    requires forall i :: 0 <= i < |s| ==> IsRadixDigit(s[i], hex)
  {
    if s == [] then 0
    else
      assert IsRadixDigit(s[|s| - 1], hex);
      RadixValue(s[..|s| - 1], hex) * (if hex then 16 else 10)
      + (if hex then HexValue(s[|s| - 1]) else DigitValue(s[|s| - 1]))
  }

  /** The longest prefix of `s` made of digits of the radix. */
  function DigitPrefix(s: string, hex: bool): (z: string)
    ensures forall i :: 0 <= i < |z| ==> IsRadixDigit(z[i], hex)
  {
    if s != [] && IsRadixDigit(s[0], hex) then [s[0]] + DigitPrefix(s[1..], hex) else []
  }

  lemma {:induction false} DigitPrefixIsLongest(s: string, hex: bool)
    ensures var z := DigitPrefix(s, hex);
      StartsWith(s, z) && (|z| < |s| ==> !IsRadixDigit(s[|z|], hex))
  {
    if s != [] && IsRadixDigit(s[0], hex) {
      DigitPrefixIsLongest(s[1..], hex);
    }
  }

  /**
   * `parseInt(s)` without a radix argument: skip leading whitespace, read an
   * optional sign, take radix 16 after a `0x`/`0X` prefix and radix 10 otherwise,
   * and read the longest run of digits; `None` stands for NaN (no digits at all).
   */
  function ParseInt(s: string): (r: Option<int>)
    ensures r.None? <==> DigitPrefix(AfterRadixPrefix(AfterSign(TrimStart(s))), HasHexPrefix(AfterSign(TrimStart(s)))) == []
  {
    var t := TrimStart(s);
    var negative := t != [] && t[0] == '-';
    var u := AfterSign(t);
    var hex := HasHexPrefix(u);
    var z := DigitPrefix(AfterRadixPrefix(u), hex);
    if z == [] then None
    else
      var v: int := RadixValue(z, hex);
      Some(if negative then -v else v)
  }

  function AfterSign(t: string): (u: string)
    ensures |u| <= |t|
  {
    if t != [] && (t[0] == '-' || t[0] == '+') then t[1..] else t
  }

  predicate HasHexPrefix(u: string) {
    |u| >= 2 && u[0] == '0' && (u[1] == 'x' || u[1] == 'X')
  }

  function AfterRadixPrefix(u: string): string {
    if HasHexPrefix(u) then u[2..] else u
  }

  lemma {:induction false} DigitPrefixOfDigits(s: string)
    requires AllDigits(s)
    ensures DigitPrefix(s, false) == s
  {
    if s != [] {
      DigitPrefixOfDigits(s[1..]);
    }
  }

  lemma {:induction false} RadixValueDecimal(s: string)
    requires AllDigits(s)
    ensures RadixValue(s, false) == DecimalValue(s)
  {
    if s != [] {
      RadixValueDecimal(s[..|s| - 1]);
    }
  }

  /** The digit prefix of a run of digits followed by a non-digit is that run. */
  lemma {:induction false} DigitPrefixOfDigitsThen(d: string, rest: string)
    requires AllDigits(d)
    requires rest == [] || !IsAsciiDigit(rest[0])
    ensures DigitPrefix(d + rest, false) == d
  {
    if d != [] {
      DigitPrefixOfDigitsThen(d[1..], rest);
      assert (d + rest)[1..] == d[1..] + rest;
    }
  }

  /** `parseInt` reads back what `${n}` printed, whatever non-digit text follows it. */
  lemma ParseIntOfNatToStringThen(n: nat, rest: string)
    requires rest == [] || (!IsAsciiDigit(rest[0]) && rest[0] != 'x' && rest[0] != 'X')
    ensures ParseInt(NatToString(n) + rest) == Some(n)
  {
    var d := NatToString(n);
    var s := d + rest;
    assert s[0] == d[0];
    assert !IsWhitespace(s[0]);
    assert TrimStart(s) == s;
    assert AfterSign(s) == s;
    assert !HasHexPrefix(s) by {
      if |d| >= 2 {
        assert s[1] == d[1];
      } else if |s| >= 2 {
        assert s[1] == rest[0];
      }
    }
    DigitPrefixOfDigitsThen(d, rest);
    RadixValueDecimal(d);
    DecimalOfNatToString(n);
  }

  /** `parseInt` reads back what `${n}` printed. */
  lemma ParseIntOfNatToString(n: nat)
    ensures ParseInt(NatToString(n)) == Some(n)
  {
    ParseIntOfNatToStringThen(n, []);
    assert NatToString(n) + [] == NatToString(n);
  }
}
