/**
 * The pieces of Python's text handling that date parsing relies on:
 * `str.split(sep)`, `int(text)` in base 10 and `str(n)` for a natural number.
 * Only ASCII digits are recognised, and only the six whitespace characters
 * `int()` skips around a literal held in an ASCII string.
 */
module Numerals {
  import opened Wrappers

  predicate IsDigit(c: char) {
    '0' <= c <= '9'
  }

  function DigitValue(c: char): nat
    requires IsDigit(c)
  {
    c as int - '0' as int
  }

  function DigitChar(d: nat): (c: char)
    requires d < 10
    ensures IsDigit(c) && DigitValue(c) == d
  {
    ('0' as int + d) as char
  }

  /**
   * The characters `int()` skips around the literal: tab, line feed,
   * vertical tab, form feed, carriage return and space. The separators
   * U+001C..U+001F count as whitespace for `str.strip` but not here.
   */
  predicate IsSpace(c: char) {
    (9 <= c as int <= 13) || c as int == 32
  }

  /** The leading whitespace `int()` skips, removed. */
  function TrimStart(s: string): (r: string)
    ensures |r| <= |s|
    ensures r != [] ==> !IsSpace(r[0])
  {
    if s != [] && IsSpace(s[0]) then TrimStart(s[1..]) else s
  }

  /** What `TrimStart` leaves is a suffix of the text, and only whitespace went. */
  lemma {:induction false} TrimStartSuffix(s: string)
    ensures s == s[..|s| - |TrimStart(s)|] + TrimStart(s)
    ensures forall i :: 0 <= i < |s| - |TrimStart(s)| ==> IsSpace(s[i])
  {
    if s != [] && IsSpace(s[0]) {
      TrimStartSuffix(s[1..]);
      assert s == [s[0]] + s[1..];
    }
  }

  /** The trailing whitespace `int()` skips, removed. */
  function TrimEnd(s: string): (r: string)
    ensures |r| <= |s|
    ensures r != [] ==> !IsSpace(r[|r| - 1])
  {
    if s != [] && IsSpace(s[|s| - 1]) then TrimEnd(s[..|s| - 1]) else s
  }

  /** What `TrimEnd` leaves is a prefix of the text, and only whitespace went. */
  lemma {:induction false} TrimEndPrefix(s: string)
    ensures s == TrimEnd(s) + s[|TrimEnd(s)|..]
    ensures forall i :: |TrimEnd(s)| <= i < |s| ==> IsSpace(s[i])
  {
    if s != [] && IsSpace(s[|s| - 1]) {
      TrimEndPrefix(s[..|s| - 1]);
      assert s == s[..|s| - 1] + [s[|s| - 1]];
    }
  }

  /**
   * `s.split(sep)`: the pieces between occurrences of `sep`, empty pieces
   * included, so there is always one more piece than there are separators.
   */
  function SplitOn(s: string, sep: char): (parts: seq<string>)
    ensures |parts| >= 1
  {
    if s == [] then [""]
    else
      var rest := SplitOn(s[1..], sep);
      if s[0] == sep then [""] + rest
      else [[s[0]] + rest[0]] + rest[1..]
  }

  /** The joined pieces give back the text, and no piece holds the separator. */
  lemma {:induction false} SplitOnJoin(s: string, sep: char)
    ensures Join(SplitOn(s, sep), sep) == s
    ensures forall k :: 0 <= k < |SplitOn(s, sep)| ==> sep !in SplitOn(s, sep)[k]
  {
    if s != [] {
      var rest := SplitOn(s[1..], sep);
      SplitOnJoin(s[1..], sep);
      if s[0] == sep {
        assert SplitOn(s, sep) == [""] + rest;
        JoinCons("", rest, sep);
      } else {
        assert SplitOn(s, sep) == [[s[0]] + rest[0]] + rest[1..];
        if |rest| == 1 {
          assert rest == [rest[0]];
        } else {
          assert rest == [rest[0]] + rest[1..];
          JoinCons(rest[0], rest[1..], sep);
          JoinCons([s[0]] + rest[0], rest[1..], sep);
        }
      }
    }
  }

  /** `sep.join(parts)`: the inverse of `SplitOn`. */
  function Join(parts: seq<string>, sep: char): string
    requires |parts| >= 1
  {
    if |parts| == 1 then parts[0] else parts[0] + [sep] + Join(parts[1..], sep)
  }

  lemma JoinCons(first: string, rest: seq<string>, sep: char)
    requires |rest| >= 1
    ensures Join([first] + rest, sep) == first + [sep] + Join(rest, sep)
  {
    assert ([first] + rest)[1..] == rest;
  }

  /** Two pieces without the separator, joined by it, split back into the two. */
  lemma {:induction false} SplitOnPair(a: string, b: string, sep: char)
    requires sep !in a && sep !in b
    ensures SplitOn(a + [sep] + b, sep) == [a, b]
  {
    if a == [] {
      assert a + [sep] + b == [sep] + b;
      SplitOnNone(b, sep);
    } else {
      assert (a + [sep] + b)[1..] == a[1..] + [sep] + b;
      SplitOnPair(a[1..], b, sep);
      assert [a[0]] + a[1..] == a;
    }
  }

  lemma {:induction false} SplitOnNone(s: string, sep: char)
    requires sep !in s
    ensures SplitOn([sep] + s, sep) == ["", s]
    ensures SplitOn(s, sep) == [s]
  {
    assert ([sep] + s)[1..] == s;
    if s != [] {
      SplitOnNone(s[1..], sep);
      assert [s[0]] + s[1..] == s;
    }
  }

  /**
   * The digits of a base-10 literal, with single underscores allowed between
   * digits (`1_000`); None for anything else, the empty text included.
   */
  function DigitsValue(s: string): Option<nat>
  {
    if s == [] || !IsDigit(s[|s| - 1]) then None
    else if |s| == 1 then Some(DigitValue(s[0]))
    else
      var init := if s[|s| - 2] == '_' then s[..|s| - 2] else s[..|s| - 1];
      match DigitsValue(init)
      case None => None
      case Some(v) => Some(10 * v + DigitValue(s[|s| - 1]))
  }

  /** A character that can occur in a text `int()` accepts. */
  predicate IsNumeralChar(c: char) {
    IsDigit(c) || IsSpace(c) || c == '+' || c == '-' || c == '_'
  }

  /** Only digits and underscores make up an accepted digit string. */
  lemma {:induction false} DigitsValueSound(s: string)
    requires DigitsValue(s).Some?
    ensures forall c :: c in s ==> IsDigit(c) || c == '_'
  {
    if |s| > 1 {
      var init := if s[|s| - 2] == '_' then s[..|s| - 2] else s[..|s| - 1];
      DigitsValueSound(init);
      assert s == init + s[|init|..];
      assert forall i :: |init| <= i < |s| ==> IsDigit(s[i]) || s[i] == '_';
    }
  }

  /** `int()` raises ValueError on any text holding a letter or other stray character. */
  lemma ParseIntSound(s: string)
    requires ParseInt(s).Some?
    ensures forall c :: c in s ==> IsNumeralChar(c)
  {
    var u := TrimStart(s);
    var t := TrimEnd(u);
    TrimStartSuffix(s);
    TrimEndPrefix(u);
    if t != [] && (t[0] == '+' || t[0] == '-') {
      DigitsValueSound(t[1..]);
      assert t == [t[0]] + t[1..];
    } else {
      DigitsValueSound(t);
    }
    assert forall c :: c in t ==> IsNumeralChar(c);
    assert forall c :: c in u ==> IsNumeralChar(c) by {
      assert u == t + u[|t|..];
    }
    assert s == s[..|s| - |u|] + u;
  }

  /** `int(s)`: surrounding whitespace, then an optional sign, then digits. */
  function ParseInt(s: string): Option<int>
  {
    var t := TrimEnd(TrimStart(s));
    if t != [] && (t[0] == '+' || t[0] == '-') then
      match DigitsValue(t[1..])
      case None => None
      case Some(v) => var n: int := if t[0] == '-' then 0 - v as int else v; Some(n)
    else
      match DigitsValue(t)
      case None => None
      case Some(v) => Some(v)
  }

  /** `str(n)` for a natural number. */
  function ShowNat(n: nat): (s: string)
    ensures |s| >= 1
    ensures forall i :: 0 <= i < |s| ==> IsDigit(s[i])
    ensures n > 0 ==> s[0] != '0'
  {
    if n < 10 then [DigitChar(n)] else ShowNat(n / 10) + [DigitChar(n % 10)]
  }

  lemma {:induction false} DigitsOfShowNat(n: nat)
    ensures DigitsValue(ShowNat(n)) == Some(n)
  {
    if n >= 10 {
      var s := ShowNat(n);
      DigitsOfShowNat(n / 10);
      assert s[..|s| - 1] == ShowNat(n / 10);
    }
  }

  /** `int(str(n)) == n`. */
  lemma ParseShowNat(n: nat)
    ensures ParseInt(ShowNat(n)) == Some(n)
  {
    var s := ShowNat(n);
    assert !IsSpace(s[0]) && !IsSpace(s[|s| - 1]);
    assert TrimEnd(TrimStart(s)) == s;
    DigitsOfShowNat(n);
  }
}
