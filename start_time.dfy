/** Reading a schedule's start time.

    A schedule stores `start_time` as free text, and the check-in code turns
    it into a `datetime.time` with
    `time(int(parts[0]), int(parts[1]), int(parts[2]) if len(parts) > 2 else 0)`
    where `parts = start_time.split(":")`. Every way that can raise
    (`IndexError`, `ValueError` from `int()` or from `time()`) is an uncaught
    exception, modelled as `None`.
 */
module StartTime {
  import opened Values
  import opened Clock

  // ---------------------------------------------------------------------
  // str.split(sep)

  /** `s.split(sep)`: the pieces between occurrences of `sep`; never empty. */
  function Split(s: string, sep: char): (r: seq<string>)
    ensures |r| >= 1
    ensures forall i :: 0 <= i < |r| ==> sep !in r[i]
  {
    if s == [] then [""]
    else
      var rest := Split(s[1..], sep);
      if s[0] == sep then [""] + rest
      else [[s[0]] + rest[0]] + rest[1..]
  }

  /** `sep.join(parts)`. */
  function JoinWith(parts: seq<string>, sep: char): string
    requires |parts| >= 1
  {
    if |parts| == 1 then parts[0] else parts[0] + [sep] + JoinWith(parts[1..], sep)
  }

  /** Joining the pieces again gives back the original text. */
  lemma {:induction false} SplitJoin(s: string, sep: char)
    ensures JoinWith(Split(s, sep), sep) == s
  {
    if s != [] {
      var rest := Split(s[1..], sep);
      SplitJoin(s[1..], sep);
      if s[0] == sep {
        assert Split(s, sep)[1..] == rest;
      } else {
        var r := Split(s, sep);
        if |rest| == 1 {
          assert r == [[s[0]] + rest[0]];
        } else {
          assert r[1..] == rest[1..];
          assert JoinWith(rest, sep) == rest[0] + [sep] + JoinWith(rest[1..], sep);
        }
      }
    }
  }

  /** A piece free of `sep` followed by `sep` splits off as the first piece. */
  lemma {:induction false} SplitAfter(a: string, b: string, sep: char)
    requires sep !in a
    ensures Split(a + [sep] + b, sep) == [a] + Split(b, sep)
  {
    if a != [] {
      SplitAfter(a[1..], b, sep);
      assert (a + [sep] + b)[1..] == a[1..] + [sep] + b;
      assert [a[0]] + a[1..] == a;
    } else {
      assert (a + [sep] + b)[1..] == b;
    }
  }

  /** Text without `sep` is a single piece. */
  lemma {:induction false} SplitWhole(a: string, sep: char)
    requires sep !in a
    ensures Split(a, sep) == [a]
  {
    if a != [] {
      SplitWhole(a[1..], sep);
      assert [a[0]] + a[1..] == a;
    }
  }

  /** The first piece is the text up to the first `sep` (all of it when
      there is none). */
  lemma {:induction false} SplitFirst(s: string, sep: char)
    ensures |Split(s, sep)[0]| <= |s|
    ensures Split(s, sep)[0] == s[..|Split(s, sep)[0]|]
    ensures |Split(s, sep)[0]| < |s| ==> s[|Split(s, sep)[0]|] == sep
  {
    if s != [] {
      SplitFirst(s[1..], sep);
    }
  }

  // ---------------------------------------------------------------------
  // int(text)

  /** The characters `int()` strips: Python's white space, which besides
      the ASCII blanks takes the separators U+001C..U+001F and the Unicode
      spaces. */
  predicate IsSpace(c: char) {
    var n := c as int;
    9 <= n <= 13 || 28 <= n <= 32 || n == 0x85 || n == 0xA0 || n == 0x1680
    || 0x2000 <= n <= 0x200A || n == 0x2028 || n == 0x2029 || n == 0x202F || n == 0x205F || n == 0x3000
  }

  function TrimLeft(s: string): string {
    if s != [] && IsSpace(s[0]) then TrimLeft(s[1..]) else s
  }

  function TrimRight(s: string): string {
    if s != [] && IsSpace(s[|s| - 1]) then TrimRight(s[..|s| - 1]) else s
  }

  predicate AllDigits(s: string) {
    forall k :: 0 <= k < |s| ==> IsDigit(s[k])
  }

  /** A run of ASCII digits as a number; None where `int()` raises. */
  function Unsigned(t: string): (r: Option<nat>)
    ensures r.Some? <==> t != [] && AllDigits(t)
  {
    if t != [] && AllDigits(t) then Some(DigitsValue(t)) else None
  }

  /** Python's `int(text)`: surrounding white space, an optional sign, then
      decimal digits (leading zeros allowed). None where `int()` raises. */
  function PyInt(s: string): (r: Option<int>)
  {
    var t := TrimRight(TrimLeft(s));
    if t != [] && (t[0] == '-' || t[0] == '+') then
      match Unsigned(t[1..])
      case None => None
      case Some(n) =>
        var v: int := if t[0] == '-' then -(n as int) else n;
        Some(v)
    else
      match Unsigned(t)
      case None => None
      case Some(n) => Some(n)
  }

  /** Text that neither starts nor ends with white space is not trimmed. */
  lemma TrimNothing(s: string)
    requires s != [] && !IsSpace(s[0]) && !IsSpace(s[|s| - 1])
    ensures TrimRight(TrimLeft(s)) == s
  {
  }

  lemma PyIntOfDigits(t: string)
    requires t != [] && AllDigits(t)
    ensures PyInt(t) == Some(DigitsValue(t))
    ensures PyInt("-" + t) == Some(-(DigitsValue(t) as int))
  {
    TrimNothing(t);
    assert IsDigit(t[|t| - 1]);
    var u := "-" + t;
    TrimNothing(u);
    assert u[1..] == t;
  }

  /** `int(str(i)) == i`. */
  lemma PyIntOfIntToString(i: int)
    ensures PyInt(IntToString(i)) == Some(i)
  {
    if i < 0 {
      var digits := NatToString(-i);
      assert IntToString(i) == "-" + digits;
      PyIntOfDigits(digits);
      NatToStringRoundTrip(-i);
    } else {
      PyIntOfDigits(NatToString(i));
      NatToStringRoundTrip(i);
    }
  }

  // ---------------------------------------------------------------------
  // The start time

  /** The start time as a second of the day, or None when building the
      `time` value raises. */
  function ParseStartTime(s: string): (r: Option<nat>)
    ensures r.Some? ==> r.value < SecondsPerDay
    ensures r.Some? ==> |Split(s, ':')| >= 2
  {
    var parts := Split(s, ':');
    if |parts| < 2 then None
    else
      var h := PyInt(parts[0]);
      var m := PyInt(parts[1]);
      var sec := if |parts| > 2 then PyInt(parts[2]) else Some(0);
      if h.None? || m.None? || sec.None? then None
      else if !(0 <= h.value < 24 && 0 <= m.value < 60 && 0 <= sec.value < 60) then None
      else Some(h.value * 3600 + m.value * 60 + sec.value)
  }

  /** Two zero-padded digits, as in "08". */
  function Pad2(n: nat): (r: string)
    requires n < 100
    ensures |r| == 2 && AllDigits(r)
  {
    [DigitChar(n / 10), DigitChar(n % 10)]
  }

  function FormatHMS(h: nat, m: nat, s: nat): string
    requires h < 100 && m < 100 && s < 100
  {
    Pad2(h) + ":" + Pad2(m) + ":" + Pad2(s)
  }

  function FormatHM(h: nat, m: nat): string
    requires h < 100 && m < 100
  {
    Pad2(h) + ":" + Pad2(m)
  }

  lemma DigitRoundTrip(d: nat)
    requires d < 10
    ensures DigitValue(DigitChar(d)) == d
  {
  }

  lemma PyIntPad2(n: nat)
    requires n < 100
    ensures PyInt(Pad2(n)) == Some(n)
  {
    var p := Pad2(n);
    PyIntOfDigits(p);
    DigitRoundTrip(n / 10);
    DigitRoundTrip(n % 10);
    assert p[..1] == [DigitChar(n / 10)];
    assert p[..1][..0] == [];
    assert DigitsValue(p[..1]) == n / 10;
    assert DigitsValue(p) == (n / 10) * 10 + n % 10;
  }

  lemma SplitHMS(h: nat, m: nat, s: nat, tail: string)
    requires h < 100 && m < 100 && s < 100
    ensures Split(FormatHMS(h, m, s), ':') == [Pad2(h), Pad2(m), Pad2(s)]
    ensures Split(FormatHMS(h, m, s) + ":" + tail, ':') == [Pad2(h), Pad2(m), Pad2(s)] + Split(tail, ':')
  {
    var ph, pm, ps := Pad2(h), Pad2(m), Pad2(s);
    SplitWhole(ps, ':');
    SplitAfter(pm, ps, ':');
    assert FormatHMS(h, m, s) == ph + [':'] + (pm + [':'] + ps);
    SplitAfter(ph, pm + [':'] + ps, ':');
    SplitHMSTail(h, m, s, tail);
  }

  lemma SplitHMSTail(h: nat, m: nat, s: nat, tail: string)
    requires h < 100 && m < 100 && s < 100
    ensures Split(FormatHMS(h, m, s) + ":" + tail, ':') == [Pad2(h), Pad2(m), Pad2(s)] + Split(tail, ':')
  {
    var ph, pm, ps := Pad2(h), Pad2(m), Pad2(s);
    SplitAfter(ps, tail, ':');
    SplitAfter(pm, ps + [':'] + tail, ':');
    assert FormatHMS(h, m, s) + ":" + tail == ph + [':'] + (pm + [':'] + (ps + [':'] + tail));
    SplitAfter(ph, pm + [':'] + (ps + [':'] + tail), ':');
  }

  lemma SplitHM(h: nat, m: nat)
    requires h < 100 && m < 100
    ensures Split(FormatHM(h, m), ':') == [Pad2(h), Pad2(m)]
  {
    SplitWhole(Pad2(m), ':');
    SplitAfter(Pad2(h), Pad2(m), ':');
  }

  /** "HH:MM:SS" reads back as the second of the day it names. */
  lemma ParseHMS(h: nat, m: nat, s: nat)
    requires h < 24 && m < 60 && s < 60
    ensures ParseStartTime(FormatHMS(h, m, s)) == Some(h * 3600 + m * 60 + s)
  {
    SplitHMS(h, m, s, "");
    PyIntPad2(h);
    PyIntPad2(m);
    PyIntPad2(s);
  }

  /** "HH:MM" has its seconds default to zero. */
  lemma ParseHM(h: nat, m: nat)
    requires h < 24 && m < 60
    ensures ParseStartTime(FormatHM(h, m)) == Some(h * 3600 + m * 60)
  {
    SplitHM(h, m);
    PyIntPad2(h);
    PyIntPad2(m);
  }

  /** Pieces after the third are never looked at: "HH:MM:SS:anything" reads
      as "HH:MM:SS". */
  lemma ParseIgnoresTail(h: nat, m: nat, s: nat, tail: string)
    requires h < 24 && m < 60 && s < 60
    ensures ParseStartTime(FormatHMS(h, m, s) + ":" + tail) == Some(h * 3600 + m * 60 + s)
  {
    SplitHMSTail(h, m, s, tail);
    PyIntPad2(h);
    PyIntPad2(m);
    PyIntPad2(s);
    ParseOfFields(FormatHMS(h, m, s) + ":" + tail, h, m, s);
  }

  /** A start time whose first three pieces read as an hour, a minute and a
      second in range names that second of the day. */
  lemma ParseOfFields(text: string, h: nat, m: nat, s: nat)
    requires h < 24 && m < 60 && s < 60
    requires |Split(text, ':')| > 2
    requires PyInt(Split(text, ':')[0]) == Some(h) && PyInt(Split(text, ':')[1]) == Some(m)
    requires PyInt(Split(text, ':')[2]) == Some(s)
    ensures ParseStartTime(text) == Some(h * 3600 + m * 60 + s)
  {
  }

  /** A start time without any ':' fails (`parts[1]` raises IndexError). */
  lemma ParseNeedsColon(s: string)
    requires ':' !in s
    ensures ParseStartTime(s) == None
  {
    SplitWhole(s, ':');
  }
}
