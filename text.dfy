/**
 * String routines the JavaScript code takes from its runtime: decimal
 * `toString()` of a non-negative integer, `padStart(2, '0')`, `indexOf` and
 * `trim`.  Each comes with the inverse or the characterisation the rest of
 * the model relies on.  `split` and digit parsing are not used by the code;
 * they are here to read the clock faces it produces back.
 */
module Text {
  import opened Wrappers

  predicate IsDigit(c: char) { '0' <= c <= '9' }

  predicate AllDigits(s: string) { forall i :: 0 <= i < |s| ==> IsDigit(s[i]) }

  function DigitChar(d: nat): (c: char)
    requires d < 10
    ensures IsDigit(c)
  {
    ('0' as int + d) as char
  }

  function DigitValue(c: char): nat
    requires IsDigit(c)
  {
    c as int - '0' as int
  }

  /** `n.toString()` for a non-negative integer: decimal, no leading zero. */
  function NatToString(n: nat): (s: string)
    ensures |s| >= 1 && AllDigits(s)
    ensures |s| > 1 ==> s[0] != '0'
    decreases n
  {
    if n < 10 then [DigitChar(n)] else NatToString(n / 10) + [DigitChar(n % 10)]
  }

  /** The value of a string of decimal digits (the empty string reads as 0). */
  function ParseNat(s: string): nat
    requires AllDigits(s)
    decreases |s|
  {
    if s == [] then 0 else ParseNat(s[..|s| - 1]) * 10 + DigitValue(s[|s| - 1])
  }

  lemma {:induction false} ParseNatToString(n: nat)
    ensures ParseNat(NatToString(n)) == n
    decreases n
  {
    if n >= 10 {
      var s := NatToString(n);
      assert s[..|s| - 1] == NatToString(n / 10);
      ParseNatToString(n / 10);
    }
  }

  lemma {:induction false} ParseNatLeadingZero(s: string)
    requires AllDigits(s)
    ensures AllDigits(['0'] + s) && ParseNat(['0'] + s) == ParseNat(s)
    decreases |s|
  {
    if s != [] {
      var t := ['0'] + s;
      assert t[..|t| - 1] == ['0'] + s[..|s| - 1];
      ParseNatLeadingZero(s[..|s| - 1]);
    }
  }

  /** `s.padStart(2, '0')`. */
  function PadStart2(s: string): string
  {
    if |s| >= 2 then s else seq(2 - |s|, _ => '0') + s
  }

  /** Padding puts zeros in front of `s`, only as many as bring it to two characters. */
  lemma PadStart2Shape(s: string)
    ensures var r := PadStart2(s);
      && |r| == (if |s| >= 2 then |s| else 2)
      && r[|r| - |s|..] == s
      && forall k :: 0 <= k < |r| - |s| ==> r[k] == '0'
  {
    var r := PadStart2(s);
    if |s| < 2 {
      assert r[|r| - |s|..] == s;
    }
  }

  lemma {:induction false} PaddedDigits(n: nat)
    ensures var r := PadStart2(NatToString(n));
      AllDigits(r) && |r| >= 2 && (n < 100 ==> |r| == 2) && ParseNat(r) == n
  {
    var s := NatToString(n);
    ParseNatToString(n);
    if n < 10 {
      assert PadStart2(s) == ['0'] + s;
      ParseNatLeadingZero(s);
    } else if n < 100 {
      assert s[..|s| - 1] == NatToString(n / 10);
    } else {
      assert s[..|s| - 1] == NatToString(n / 10);
      assert |NatToString(n / 10)| >= 2;
    }
  }

  /** `n.toString().padStart(2, '0')`: the decimal digits of `n`, at least two of them. */
  function Pad2(n: nat): (r: string)
    ensures AllDigits(r) && |r| >= 2
    ensures n < 100 ==> |r| == 2
    ensures ParseNat(r) == n
  {
    PaddedDigits(n);
    PadStart2(NatToString(n))
  }

  /** The position of the first `c` in `s`. */
  function FirstIndexOfChar(s: string, c: char): (i: nat)
    requires c in s
    ensures i < |s| && s[i] == c && c !in s[..i]
  {
    if s[0] == c then 0 else 1 + FirstIndexOfChar(s[1..], c)
  }

  lemma FirstIndexAt(s: string, c: char, i: nat)
    requires i < |s| && s[i] == c
    requires forall k :: 0 <= k < i ==> s[k] != c
    ensures FirstIndexOfChar(s, c) == i
  {
    var j := FirstIndexOfChar(s, c);
    forall k | 0 <= k < j
      ensures s[k] != c
    {
      assert s[..j][k] == s[k];
    }
  }

  /** `s.split(sep)` for a one-character separator. */
  function Split(s: string, sep: char): (parts: seq<string>)
    ensures |parts| >= 1
    ensures forall i :: 0 <= i < |parts| ==> sep !in parts[i]
    decreases |s|
  {
    if sep !in s then [s]
    else
      var i := FirstIndexOfChar(s, sep);
      [s[..i]] + Split(s[i + 1..], sep)
  }

  lemma SplitCons(a: string, sep: char, rest: string)
    requires sep !in a
    ensures Split(a + [sep] + rest, sep) == [a] + Split(rest, sep)
  {
    var s := a + [sep] + rest;
    assert forall k :: 0 <= k < |a| ==> s[k] == a[k];
    FirstIndexAt(s, sep, |a|);
    assert s[..|a|] == a && s[|a| + 1..] == rest;
  }

  lemma SplitSingle(a: string, sep: char)
    requires sep !in a
    ensures Split(a, sep) == [a]
  {
  }

  lemma DigitsHaveNo(s: string, c: char)
    requires AllDigits(s) && !IsDigit(c)
    ensures c !in s
  {
    assert forall i :: 0 <= i < |s| ==> s[i] != c;
  }

  /** `${pad(h)}:${pad(m)}:${pad(s)}`, the clock face both countdowns show. */
  function Clock(h: nat, m: nat, s: nat): string
  {
    Pad2(h) + ":" + Pad2(m) + ":" + Pad2(s)
  }

  /** Reads a clock face back: three colon-separated, non-empty digit fields. */
  function ParseClock(t: string): Option<(nat, nat, nat)>
  {
    var f := Split(t, ':');
    if |f| == 3 && (forall i :: 0 <= i < 3 ==> AllDigits(f[i]) && f[i] != []) then
      Some((ParseNat(f[0]), ParseNat(f[1]), ParseNat(f[2])))
    else None
  }

  lemma SplitThree(a: string, b: string, c: string, sep: char)
    requires AllDigits(a) && AllDigits(b) && AllDigits(c) && !IsDigit(sep)
    ensures Split(a + [sep] + b + [sep] + c, sep) == [a, b, c]
  {
    DigitsHaveNo(a, sep);
    DigitsHaveNo(b, sep);
    DigitsHaveNo(c, sep);
    assert a + [sep] + b + [sep] + c == a + [sep] + (b + [sep] + c);
    SplitCons(a, sep, b + [sep] + c);
    SplitCons(b, sep, c);
    SplitSingle(c, sep);
  }

  /** A clock face splits into its three padded fields and reads back as the same numbers. */
  lemma ClockRoundTrip(h: nat, m: nat, s: nat)
    ensures Split(Clock(h, m, s), ':') == [Pad2(h), Pad2(m), Pad2(s)]
    ensures ParseClock(Clock(h, m, s)) == Some((h, m, s))
  {
    var a, b, c := Pad2(h), Pad2(m), Pad2(s);
    SplitThree(a, b, c, ':');
    assert Clock(h, m, s) == a + [':'] + b + [':'] + c;
  }

  /** `s` occurs in `t` at position `i`. */
  predicate OccursAt(t: string, s: string, i: nat)
  {
    i + |s| <= |t| && t[i..i + |s|] == s
  }

  function IndexOfFrom(t: string, s: string, from: nat): (r: Option<nat>)
    requires from <= |t|
    ensures r.Some? ==> from <= r.value && OccursAt(t, s, r.value)
    ensures forall j: nat :: from <= j && (r.None? || j < r.value) ==> !OccursAt(t, s, j)
    decreases |t| - from
  {
    if OccursAt(t, s, from) then Some(from)
    else if from + |s| >= |t| then None
    else IndexOfFrom(t, s, from + 1)
  }

  /** `t.indexOf(s)`: the first position at which `s` occurs, or None (JavaScript's -1). */
  function IndexOf(t: string, s: string): (r: Option<nat>)
    ensures r.Some? ==> OccursAt(t, s, r.value)
    ensures forall j: nat :: (r.None? || j < r.value) ==> !OccursAt(t, s, j)
  {
    IndexOfFrom(t, s, 0)
  }

  /**
   * The characters String.prototype.trim removes: the WhiteSpace and
   * LineTerminator code points of ECMAScript (tab, vertical tab, form feed,
   * space, no-break space, byte-order mark, the Unicode space separators,
   * line feed, carriage return, line and paragraph separator).
   */
  predicate IsJsSpace(c: char)
  {
    var n := c as int;
    n == 0x09 || n == 0x0A || n == 0x0B || n == 0x0C || n == 0x0D || n == 0x20
    || n == 0xA0 || n == 0x1680 || (0x2000 <= n <= 0x200A) || n == 0x2028
    || n == 0x2029 || n == 0x202F || n == 0x205F || n == 0x3000 || n == 0xFEFF
  }

  function TrimStart(s: string): (r: string)
    ensures |r| <= |s| && r == s[|s| - |r|..]
    ensures forall k :: 0 <= k < |s| - |r| ==> IsJsSpace(s[k])
    ensures r != [] ==> !IsJsSpace(r[0])
  {
    if s != [] && IsJsSpace(s[0]) then TrimStart(s[1..]) else s
  }

  function TrimEnd(s: string): (r: string)
    ensures |r| <= |s| && r == s[..|r|]
    ensures forall k :: |r| <= k < |s| ==> IsJsSpace(s[k])
    ensures r != [] ==> !IsJsSpace(r[|r| - 1])
  {
    if s != [] && IsJsSpace(s[|s| - 1]) then TrimEnd(s[..|s| - 1]) else s
  }

  /** `s.trim()`: `s` without its leading and trailing white space. */
  function Trim(s: string): (r: string)
    ensures |r| <= |s|
    ensures r != [] ==> !IsJsSpace(r[0]) && !IsJsSpace(r[|r| - 1])
  {
    TrimEnd(TrimStart(s))
  }

  /** Trim keeps the contiguous middle part `s[i..i + |Trim(s)|]` and drops only white space around it. */
  lemma TrimShape(s: string) returns (i: nat)
    ensures var r := Trim(s);
      i + |r| <= |s| && r == s[i..i + |r|]
      && (forall k :: 0 <= k < i ==> IsJsSpace(s[k]))
      && (forall k :: i + |r| <= k < |s| ==> IsJsSpace(s[k]))
      && (r != [] ==> !IsJsSpace(r[0]) && !IsJsSpace(r[|r| - 1]))
  {
    var t := TrimStart(s);
    var r := TrimEnd(t);
    i := |s| - |t|;
    assert r != [] ==> r[0] == t[0];
  }

  /** Trim gives the empty string exactly when every character is white space. */
  lemma TrimEmpty(s: string)
    ensures Trim(s) == [] <==> forall k :: 0 <= k < |s| ==> IsJsSpace(s[k])
  {
    var i := TrimShape(s);
    var r := Trim(s);
    if r != [] {
      assert r[0] == s[i];
    }
  }
}
