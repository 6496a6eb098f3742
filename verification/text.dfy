/** The JavaScript string and number built-ins the application relies on, stated
    over Dafny strings (sequences of Unicode scalar values). Case mapping covers
    the ASCII letters only; every other character is left as it is. */
module Text {

  // ---------------------------------------------------------------------------
  // Character classes
  // ---------------------------------------------------------------------------

  /** The `\s` class of JavaScript regular expressions, which is also the set of
      characters `parseInt` skips before a number: the ASCII blanks, no-break
      space, the Unicode space separators, the line and paragraph separators and
      the byte-order mark. */
  predicate IsSpace(c: char) {
    var n := c as int;
    || n == 0x20 || (0x09 <= n <= 0x0D) || n == 0xA0 || n == 0x1680
    || (0x2000 <= n <= 0x200A) || n == 0x2028 || n == 0x2029 || n == 0x202F
    || n == 0x205F || n == 0x3000 || n == 0xFEFF
  }

  predicate IsUpper(c: char) { 'A' <= c <= 'Z' }

  predicate IsLower(c: char) { 'a' <= c <= 'z' }

  predicate IsDigit(c: char) { '0' <= c <= '9' }

  predicate AllDigits(s: string) {
    forall i :: 0 <= i < |s| ==> IsDigit(s[i])
  }

  // ---------------------------------------------------------------------------
  // Case mapping (`toLowerCase` / `toUpperCase` on ASCII letters)
  // ---------------------------------------------------------------------------

  function LowerChar(c: char): char {
    if IsUpper(c) then (c as int + 32) as char else c
  }

  function UpperChar(c: char): char {
    if IsLower(c) then (c as int - 32) as char else c
  }

  function ToLower(s: string): (r: string)
    ensures |r| == |s|
    ensures forall i :: 0 <= i < |s| ==> r[i] == LowerChar(s[i])
  {
    seq(|s|, i requires 0 <= i < |s| => LowerChar(s[i]))
  }

  function ToUpper(s: string): (r: string)
    ensures |r| == |s|
    ensures forall i :: 0 <= i < |s| ==> r[i] == UpperChar(s[i])
  {
    seq(|s|, i requires 0 <= i < |s| => UpperChar(s[i]))
  }

  // ---------------------------------------------------------------------------
  // Substrings
  // ---------------------------------------------------------------------------

  /** `s.includes(sub)`: `sub` occurs somewhere in `s`. */
  predicate Contains(s: string, sub: string) {
    exists i :: 0 <= i <= |s| - |sub| && sub <= s[i..]
  }

  /** `s.substring(0, n)` for n >= 0. */
  function Take(s: string, n: nat): (r: string)
    ensures |r| <= n && r <= s
    ensures |s| >= n ==> |r| == n
  {
    if |s| <= n then s else s[..n]
  }

  /** `s.padStart(width, fill)`. */
  function PadStart(s: string, width: nat, fill: char): (r: string)
    ensures |s| >= width ==> r == s
    ensures |s| < width ==> |r| == width && r[width - |s|..] == s
    ensures forall i :: 0 <= i < |r| - |s| ==> r[i] == fill
  {
    if |s| >= width then s else seq(width - |s|, _ => fill) + s
  }

  // ---------------------------------------------------------------------------
  // `s.split(sep)` with a one-character separator
  // ---------------------------------------------------------------------------

  /** The fields of `s` between occurrences of `sep`; there is always at least
      one field, and consecutive separators produce empty fields. */
  function Split(s: string, sep: char): (fields: seq<string>)
    ensures |fields| >= 1
    decreases |s|
  {
    if |s| == 0 then [""]
    else
      var rest := Split(s[1..], sep);
      if s[0] == sep then [""] + rest
      else [[s[0]] + rest[0]] + rest[1..]
  }

  /** `fields.join(sep)`, the inverse of `Split`. */
  function Join(fields: seq<string>, sep: char): string
    decreases |fields|
  {
    if |fields| == 0 then ""
    else if |fields| == 1 then fields[0]
    else fields[0] + [sep] + Join(fields[1..], sep)
  }

  /** Splitting loses nothing: joining the fields back gives the input. */
  lemma {:induction false} JoinSplit(s: string, sep: char)
    ensures Join(Split(s, sep), sep) == s
    decreases |s|
  {
    if |s| > 0 {
      var rest := Split(s[1..], sep);
      JoinSplit(s[1..], sep);
      if s[0] == sep {
        assert Split(s, sep) == [""] + rest;
        assert Join([""] + rest, sep) == "" + [sep] + Join(rest, sep) by {
          assert ([""] + rest)[1..] == rest;
        }
        assert s == [sep] + s[1..];
      } else {
        var head := [s[0]] + rest[0];
        assert Split(s, sep) == [head] + rest[1..];
        if |rest| == 1 {
          assert [head] + rest[1..] == [head];
          assert s == [s[0]] + s[1..];
        } else {
          assert ([head] + rest[1..])[1..] == rest[1..];
          assert Join(rest, sep) == rest[0] + [sep] + Join(rest[1..], sep);
          assert s == [s[0]] + s[1..];
        }
      }
    }
  }

  /** No field contains the separator. */
  lemma {:induction false} SplitFieldsLackSeparator(s: string, sep: char)
    ensures forall k :: 0 <= k < |Split(s, sep)| ==> sep !in Split(s, sep)[k]
    decreases |s|
  {
    if |s| > 0 {
      SplitFieldsLackSeparator(s[1..], sep);
      var rest := Split(s[1..], sep);
      if s[0] != sep {
        assert sep !in [s[0]] + rest[0];
        forall k | 0 <= k < |rest| - 1
          ensures sep !in rest[1..][k]
        {
          assert rest[1..][k] == rest[k + 1];
        }
      }
    }
  }

  /** A string without the separator is a single field. */
  lemma {:induction false} SplitWithoutSeparator(s: string, sep: char)
    requires sep !in s
    ensures Split(s, sep) == [s]
    decreases |s|
  {
    if |s| > 0 {
      SplitWithoutSeparator(s[1..], sep);
      assert s == [s[0]] + s[1..];
    }
  }

  /** A separator-free prefix followed by the separator is the first field. */
  lemma {:induction false} SplitAfterField(a: string, sep: char, b: string)
    requires sep !in a
    ensures Split(a + [sep] + b, sep) == [a] + Split(b, sep)
    decreases |a|
  {
    var s := a + [sep] + b;
    if |a| == 0 {
      assert s == [sep] + b && s[1..] == b;
    } else {
      assert s[1..] == a[1..] + [sep] + b;
      SplitAfterField(a[1..], sep, b);
      assert a == [a[0]] + a[1..];
    }
  }

  /** The first field is the longest separator-free prefix. */
  lemma {:induction false} SplitFirstField(s: string, sep: char)
    ensures Split(s, sep)[0] <= s
    ensures sep !in Split(s, sep)[0]
    ensures |Split(s, sep)[0]| < |s| ==> s[|Split(s, sep)[0]|] == sep
    decreases |s|
  {
    if |s| > 0 && s[0] != sep {
      SplitFirstField(s[1..], sep);
      assert s == [s[0]] + s[1..];
    }
  }

  // ---------------------------------------------------------------------------
  // Decimal numerals (`String(n)` and `parseInt`)
  // ---------------------------------------------------------------------------

  function DigitChar(d: nat): (c: char)
    requires d < 10
    ensures IsDigit(c)
  {
    ('0' as int + d) as char
  }

  function DigitValue(c: char): (d: nat)
    requires IsDigit(c)
    ensures d < 10
  {
    c as int - '0' as int
  }

  /** The decimal numeral of `n`, most significant digit first, no leading zero. */
  function NatToString(n: nat): (r: string)
    ensures |r| >= 1 && AllDigits(r)
    ensures r[0] == '0' ==> n == 0
    decreases n
  {
    if n < 10 then [DigitChar(n)] else NatToString(n / 10) + [DigitChar(n % 10)]
  }

  /** `String(i)` for an integer: a minus sign before the magnitude's numeral. */
  function IntToString(i: int): string {
    if i < 0 then "-" + NatToString(-i) else NatToString(i)
  }

  /** The value of a string of decimal digits, the empty string counting as 0. */
  function DigitsValue(s: string): nat
    requires AllDigits(s)
    decreases |s|
  {
    if |s| == 0 then 0 else 10 * DigitsValue(s[..|s| - 1]) + DigitValue(s[|s| - 1])
  }

  lemma {:induction false} NatToStringRoundTrip(n: nat)
    ensures DigitsValue(NatToString(n)) == n
    decreases n
  {
    if n >= 10 {
      var s := NatToString(n);
      NatToStringRoundTrip(n / 10);
      assert s[..|s| - 1] == NatToString(n / 10);
    }
  }

  /** Drops the leading characters `parseInt` treats as white space. */
  function TrimStart(s: string): (r: string)
    ensures |r| <= |s| && r == s[|s| - |r|..]
    ensures |r| > 0 ==> !IsSpace(r[0])
    ensures forall i :: 0 <= i < |s| - |r| ==> IsSpace(s[i])
    decreases |s|
  {
    if |s| > 0 && IsSpace(s[0]) then
      var r := TrimStart(s[1..]);
      assert forall i :: 0 <= i < |s| - 1 - |r| ==> s[1..][i] == s[i + 1];
      r
    else s
  }

  /** The longest prefix of `s` made of decimal digits. */
  function DigitPrefix(s: string): (r: string)
    ensures r <= s && AllDigits(r)
    ensures |r| < |s| ==> !IsDigit(s[|r|])
    decreases |s|
  {
    if |s| > 0 && IsDigit(s[0]) then [s[0]] + DigitPrefix(s[1..]) else ""
  }

  predicate IsHexDigit(c: char) {
    IsDigit(c) || ('a' <= c <= 'f') || ('A' <= c <= 'F')
  }

  function HexDigitValue(c: char): (d: nat)
    requires IsHexDigit(c)
    ensures d < 16
  {
    if IsDigit(c) then DigitValue(c)
    else if 'a' <= c <= 'f' then c as int - 'a' as int + 10
    else c as int - 'A' as int + 10
  }

  /** The longest prefix of `s` made of hexadecimal digits. */
  function HexPrefix(s: string): (r: string)
    ensures r <= s
    ensures forall i :: 0 <= i < |r| ==> IsHexDigit(r[i])
    decreases |s|
  {
    if |s| > 0 && IsHexDigit(s[0]) then [s[0]] + HexPrefix(s[1..]) else ""
  }

  function HexValue(s: string): nat
    requires forall i :: 0 <= i < |s| ==> IsHexDigit(s[i])
    decreases |s|
  {
    if |s| == 0 then 0 else 16 * HexValue(s[..|s| - 1]) + HexDigitValue(s[|s| - 1])
  }

  /** A JavaScript number restricted to the integers, plus `NaN`. */
  datatype Num = Int(i: int) | NaN

  /** The sign `parseInt` reads after the white space, and the rest. */
  function SignAndRest(t: string): (int, string) {
    if |t| > 0 && t[0] == '-' then (-1, t[1..])
    else if |t| > 0 && t[0] == '+' then (1, t[1..])
    else (1, t)
  }

  /** `parseInt(s, 10)`: white space, an optional sign, then the longest run
      of decimal digits; `NaN` when that run is empty. */
  function ParseInt10(s: string): (r: Num)
    ensures r.Int? <==> |DigitPrefix(SignAndRest(TrimStart(s)).1)| > 0
  {
    var (sign, u) := SignAndRest(TrimStart(s));
    var digits := DigitPrefix(u);
    if |digits| == 0 then NaN else Int(sign * DigitsValue(digits))
  }

  predicate HasHexPrefix(u: string) {
    |u| >= 2 && u[0] == '0' && (u[1] == 'x' || u[1] == 'X')
  }

  /** `parseInt(s)` with no radix: as `parseInt(s, 10)`, except that a `0x` or
      `0X` after the sign switches to hexadecimal. */
  function ParseInt(s: string): Num {
    var (sign, u) := SignAndRest(TrimStart(s));
    if HasHexPrefix(u) then
      var digits := HexPrefix(u[2..]);
      if |digits| == 0 then NaN else Int(sign * HexValue(digits))
    else ParseInt10(s)
  }

  lemma {:induction false} DigitPrefixOfDigits(s: string, rest: string)
    requires AllDigits(s)
    requires |rest| > 0 ==> !IsDigit(rest[0])
    ensures DigitPrefix(s + rest) == s
    decreases |s|
  {
    if |s| > 0 {
      var t := s + rest;
      assert t[0] == s[0] && IsDigit(t[0]);
      assert t[1..] == s[1..] + rest;
      assert AllDigits(s[1..]);
      DigitPrefixOfDigits(s[1..], rest);
      assert DigitPrefix(t) == [s[0]] + s[1..];
      assert [s[0]] + s[1..] == s;
    } else {
      assert s + rest == rest;
    }
  }

  /** After the (absent) white space, `String(n) + rest` reads as the sign of
      `n` followed by the numeral of its magnitude. */
  lemma {:induction false} NumeralSign(n: int, rest: string)
    ensures SignAndRest(TrimStart(IntToString(n) + rest)) ==
              (if n < 0 then -1 else 1, NatToString(if n < 0 then -n else n) + rest)
  {
    var numeral := NatToString(if n < 0 then -n else n);
    var s := IntToString(n) + rest;
    if n < 0 {
      assert s == ['-'] + (numeral + rest);
      assert s[1..] == numeral + rest;
    } else {
      assert s == numeral + rest;
      assert s[0] == numeral[0];
      assert IsDigit(s[0]);
    }
    assert !IsSpace(s[0]);
  }

  /** `parseInt(String(n), 10)` gives `n` back, even with trailing text that
      does not start with a digit. */
  lemma {:induction false} ParseInt10OfNumeral(n: int, rest: string)
    requires |rest| > 0 ==> !IsDigit(rest[0])
    ensures ParseInt10(IntToString(n) + rest) == Int(n)
  {
    var m: nat := if n < 0 then -n else n;
    var numeral := NatToString(m);
    NumeralSign(n, rest);
    DigitPrefixOfDigits(numeral, rest);
    NatToStringRoundTrip(m);
  }

  /** `parseInt(String(n))` gives `n` back: a decimal numeral never looks hexadecimal. */
  lemma {:induction false} ParseIntOfNumeral(n: int)
    ensures ParseInt(IntToString(n)) == Int(n)
  {
    var s := IntToString(n);
    var m: nat := if n < 0 then -n else n;
    var numeral := NatToString(m);
    ParseInt10OfNumeral(n, "");
    NumeralSign(n, "");
    assert s + "" == s && numeral + "" == numeral;
    NumeralNotHex(m);
  }

  /** A decimal numeral never starts with `0x`. */
  lemma {:induction false} NumeralNotHex(m: nat)
    ensures !HasHexPrefix(NatToString(m))
  {
    var numeral := NatToString(m);
    if |numeral| >= 2 {
      assert IsDigit(numeral[1]);
    }
  }

  // ---------------------------------------------------------------------------
  // `s.replace(/\s+/g, dash)`
  // ---------------------------------------------------------------------------

  function DropSpaces(s: string): (r: string)
    ensures |r| <= |s|
    ensures |r| > 0 ==> !IsSpace(r[0])
    decreases |s|
  {
    if |s| > 0 && IsSpace(s[0]) then DropSpaces(s[1..]) else s
  }

  /** Every maximal run of white space replaced by the single character `dash`. */
  function ReplaceSpaceRuns(s: string, dash: char): (r: string)
    requires !IsSpace(dash)
    ensures forall i :: 0 <= i < |r| ==> !IsSpace(r[i])
    ensures |r| <= |s|
    decreases |s|
  {
    if |s| == 0 then ""
    else if IsSpace(s[0]) then [dash] + ReplaceSpaceRuns(DropSpaces(s[1..]), dash)
    else [s[0]] + ReplaceSpaceRuns(s[1..], dash)
  }

  /** Text without white space is left as it is. */
  lemma {:induction false} ReplaceSpaceRunsWithoutSpace(s: string, dash: char)
    requires !IsSpace(dash)
    requires forall i :: 0 <= i < |s| ==> !IsSpace(s[i])
    ensures ReplaceSpaceRuns(s, dash) == s
    decreases |s|
  {
    if |s| > 0 {
      ReplaceSpaceRunsWithoutSpace(s[1..], dash);
    }
  }

  /** Dropping a run of white space in front of text that does not start
      with white space leaves that text. */
  lemma {:induction false} DropSpacesRun(w: string, b: string)
    requires forall i :: 0 <= i < |w| ==> IsSpace(w[i])
    requires |b| > 0 ==> !IsSpace(b[0])
    ensures DropSpaces(w + b) == b
    decreases |w|
  {
    if |w| > 0 {
      assert (w + b)[0] == w[0];
      assert (w + b)[1..] == w[1..] + b;
      DropSpacesRun(w[1..], b);
    } else {
      assert w + b == b;
    }
  }

  /** A maximal run of white space becomes exactly one `dash`, and the text
      before it is kept as it is. */
  lemma {:induction false} ReplaceSpaceRunsStep(a: string, w: string, b: string, dash: char)
    requires !IsSpace(dash)
    requires forall i :: 0 <= i < |a| ==> !IsSpace(a[i])
    requires |w| > 0 && forall i :: 0 <= i < |w| ==> IsSpace(w[i])
    requires |b| > 0 ==> !IsSpace(b[0])
    ensures ReplaceSpaceRuns(a + w + b, dash) == a + [dash] + ReplaceSpaceRuns(b, dash)
    decreases |a|
  {
    if |a| > 0 {
      var t := a + w + b;
      assert t[0] == a[0];
      assert t[1..] == a[1..] + w + b;
      ReplaceSpaceRunsStep(a[1..], w, b, dash);
      assert a + [dash] + ReplaceSpaceRuns(b, dash) == [a[0]] + (a[1..] + [dash] + ReplaceSpaceRuns(b, dash));
    } else {
      var t := w + b;
      assert a + w + b == t;
      assert t[0] == w[0];
      assert t[1..] == w[1..] + b;
      DropSpacesRun(w[1..], b);
      assert a + [dash] + ReplaceSpaceRuns(b, dash) == [dash] + ReplaceSpaceRuns(b, dash);
    }
  }

  /** Replacing the runs a second time changes nothing. */
  lemma ReplaceSpaceRunsIdempotent(s: string, dash: char)
    requires !IsSpace(dash)
    ensures ReplaceSpaceRuns(ReplaceSpaceRuns(s, dash), dash) == ReplaceSpaceRuns(s, dash)
  {
    ReplaceSpaceRunsWithoutSpace(ReplaceSpaceRuns(s, dash), dash);
  }

  // ---------------------------------------------------------------------------
  // `encodeURIComponent`
  // ---------------------------------------------------------------------------

  /** The characters `encodeURIComponent` leaves as they are. */
  predicate IsUriUnreserved(c: char) {
    IsUpper(c) || IsLower(c) || IsDigit(c)
    || c == '-' || c == '_' || c == '.' || c == '!' || c == '~'
    || c == '*' || c == '\'' || c == '(' || c == ')'
  }

  function HexDigitUpper(d: nat): (c: char)
    requires d < 16
    ensures IsHexDigit(c) && HexDigitValue(c) == d
  {
    if d < 10 then DigitChar(d) else ('A' as int + d - 10) as char
  }

  /** The scalar value a well-formed UTF-8 sequence of one to four bytes
      spells: the lead byte's payload bits, then six bits per continuation
      byte. */
  function Utf8Value(bytes: seq<nat>): int
    requires 1 <= |bytes| <= 4
  {
    var b: seq<int> := bytes;
    if |b| == 1 then b[0]
    else if |b| == 2 then (b[0] - 0xC0) * 0x40 + (b[1] - 0x80)
    else if |b| == 3 then (b[0] - 0xE0) * 0x1000 + (b[1] - 0x80) * 0x40 + (b[2] - 0x80)
    else (b[0] - 0xF0) * 0x40000 + (b[1] - 0x80) * 0x1000 + (b[2] - 0x80) * 0x40 + (b[3] - 0x80)
  }

  /** The UTF-8 encoding of one Unicode scalar value (`Utf8WellFormed`
      states what the bytes mean). */
  function Utf8(c: char): (bytes: seq<nat>)
    ensures 1 <= |bytes| <= 4
    ensures forall k :: 0 <= k < |bytes| ==> bytes[k] < 256
    ensures c as int < 0x80 ==> bytes == [c as int]
  {
    var n := c as int;
    if n < 0x80 then [n]
    else if n < 0x800 then [0xC0 + n / 0x40, 0x80 + n % 0x40]
    else if n < 0x10000 then [0xE0 + n / 0x1000, 0x80 + (n / 0x40) % 0x40, 0x80 + n % 0x40]
    else [0xF0 + n / 0x40000, 0x80 + (n / 0x1000) % 0x40, 0x80 + (n / 0x40) % 0x40, 0x80 + n % 0x40]
  }

  /** Each byte as `%` and two upper-case hex digits (`PercentEncodeSpells`
      states that they spell the byte). */
  function PercentEncode(bytes: seq<nat>): (r: string)
    requires forall k :: 0 <= k < |bytes| ==> bytes[k] < 256
    ensures |r| == 3 * |bytes|
    ensures forall i :: 0 <= i < |r| ==> r[i] == '%' || IsHexDigit(r[i])
    decreases |bytes|
  {
    if |bytes| == 0 then ""
    else ['%', HexDigitUpper(bytes[0] / 16), HexDigitUpper(bytes[0] % 16)] + PercentEncode(bytes[1..])
  }

  /** The escape of byte `k` is `%` followed by the two hex digits of its
      value, high digit first. */
  lemma {:induction false} PercentEncodeSpells(bytes: seq<nat>, k: nat)
    requires forall j :: 0 <= j < |bytes| ==> bytes[j] < 256
    requires k < |bytes|
    ensures var r := PercentEncode(bytes);
            && r[3 * k] == '%' && IsHexDigit(r[3 * k + 1]) && IsHexDigit(r[3 * k + 2])
            && 16 * HexDigitValue(r[3 * k + 1]) + HexDigitValue(r[3 * k + 2]) == bytes[k]
    decreases k
  {
    var head := ['%', HexDigitUpper(bytes[0] / 16), HexDigitUpper(bytes[0] % 16)];
    var rest := PercentEncode(bytes[1..]);
    assert PercentEncode(bytes) == head + rest;
    if k > 0 {
      PercentEncodeSpells(bytes[1..], k - 1);
      assert bytes[1..][k - 1] == bytes[k];
    }
  }

  /** What the UTF-8 bytes mean: the shortest form, the lead byte marking the
      length, continuation bytes in 0x80..0xBF, spelling the character's
      value. */
  lemma Utf8WellFormed(c: char)
    ensures var bytes := Utf8(c);
            && (|bytes| == 1 <==> c as int < 0x80)
            && (|bytes| == 2 <==> 0x80 <= c as int < 0x800)
            && (|bytes| == 3 <==> 0x800 <= c as int < 0x10000)
            && (|bytes| == 4 <==> 0x10000 <= c as int)
            && (|bytes| == 2 ==> 0xC0 <= bytes[0] < 0xE0)
            && (|bytes| == 3 ==> 0xE0 <= bytes[0] < 0xF0)
            && (|bytes| == 4 ==> 0xF0 <= bytes[0] < 0xF8)
            && (forall k :: 1 <= k < |bytes| ==> 0x80 <= bytes[k] < 0xC0)
            && Utf8Value(bytes) == c as int
  {
    var n := c as int;
    if n < 0x80 {
    } else if n < 0x800 {
      Utf8Two(n);
    } else if n < 0x10000 {
      Utf8Three(n);
    } else {
      Utf8Four(n);
    }
  }

  lemma Utf8Two(n: int)
    requires 0x80 <= n < 0x800
    ensures 0xC0 <= 0xC0 + n / 0x40 < 0xE0
    ensures (n / 0x40) * 0x40 + n % 0x40 == n
  {
  }

  lemma Utf8Three(n: int)
    requires 0x800 <= n < 0x10000
    ensures 0xE0 <= 0xE0 + n / 0x1000 < 0xF0
    ensures (n / 0x1000) * 0x1000 + ((n / 0x40) % 0x40) * 0x40 + n % 0x40 == n
  {
    var q := n / 0x40;
    assert q * 0x40 + n % 0x40 == n;
    assert (q / 0x40) * 0x40 + q % 0x40 == q;
    assert q / 0x40 == n / 0x1000;
  }

  lemma Utf8Four(n: int)
    requires 0x10000 <= n < 0x110000
    ensures 0xF0 <= 0xF0 + n / 0x40000 < 0xF8
    ensures (n / 0x40000) * 0x40000 + ((n / 0x1000) % 0x40) * 0x1000
            + ((n / 0x40) % 0x40) * 0x40 + n % 0x40 == n
  {
    var q := n / 0x40;
    var p := q / 0x40;
    assert q * 0x40 + n % 0x40 == n;
    assert p * 0x40 + q % 0x40 == q;
    assert (p / 0x40) * 0x40 + p % 0x40 == p;
    assert p == n / 0x1000;
    assert p / 0x40 == n / 0x40000;
  }

  /** Percent-encodes every character outside the unreserved set, byte by
      byte over its UTF-8 encoding; unreserved characters pass unchanged. */
  function EncodeUriComponent(s: string): (r: string)
    ensures forall i :: 0 <= i < |r| ==> IsUriUnreserved(r[i]) || r[i] == '%' || IsHexDigit(r[i])
    ensures (forall i :: 0 <= i < |s| ==> IsUriUnreserved(s[i])) ==> r == s
    decreases |s|
  {
    if |s| == 0 then ""
    else if IsUriUnreserved(s[0]) then [s[0]] + EncodeUriComponent(s[1..])
    else PercentEncode(Utf8(s[0])) + EncodeUriComponent(s[1..])
  }

  /** Encoding distributes over concatenation: each character is encoded on
      its own. */
  lemma {:induction false} EncodeUriComponentAppend(a: string, b: string)
    ensures EncodeUriComponent(a + b) == EncodeUriComponent(a) + EncodeUriComponent(b)
    decreases |a|
  {
    if |a| == 0 {
      assert a + b == b;
    } else {
      assert (a + b)[0] == a[0];
      assert (a + b)[1..] == a[1..] + b;
      EncodeUriComponentAppend(a[1..], b);
    }
  }

  /** A single character: kept when unreserved, otherwise the escapes of its
      UTF-8 bytes. */
  lemma EncodeUriComponentOne(c: char)
    ensures EncodeUriComponent([c]) == if IsUriUnreserved(c) then [c] else PercentEncode(Utf8(c))
  {
    assert [c][1..] == "";
  }

  // ---------------------------------------------------------------------------
  // `length` of a JavaScript string
  // ---------------------------------------------------------------------------

  /** The number of UTF-16 code units: two for a character outside the Basic
      Multilingual Plane, one otherwise. */
  function Utf16Length(s: string): (n: nat)
    ensures |s| <= n <= 2 * |s|
    decreases |s|
  {
    if |s| == 0 then 0 else (if s[0] as int >= 0x10000 then 2 else 1) + Utf16Length(s[1..])
  }

  /** The UTF-16 code units of a string, a surrogate pair for a character
      outside the Basic Multilingual Plane. */
  function Utf16(s: string): (u: seq<int>)
    ensures |u| == Utf16Length(s)
    ensures forall i :: 0 <= i < |u| ==> 0 <= u[i] < 0x1_0000
    decreases |s|
  {
    if |s| == 0 then []
    else
      var c := s[0] as int;
      var head := if c >= 0x10000 then [0xD800 + (c - 0x10000) / 0x400, 0xDC00 + (c - 0x10000) % 0x400] else [c];
      head + Utf16(s[1..])
  }

  predicate InBmp(s: string) {
    forall i :: 0 <= i < |s| ==> s[i] as int < 0x10000
  }

  /** On Basic Multilingual Plane text each character is one code unit. */
  lemma {:induction false} Utf16OfBmp(s: string)
    requires InBmp(s)
    ensures |Utf16(s)| == |s|
    ensures forall i :: 0 <= i < |s| ==> Utf16(s)[i] == s[i] as int
    decreases |s|
  {
    if |s| > 0 {
      Utf16OfBmp(s[1..]);
    }
  }

  /** On Basic Multilingual Plane text, taking characters is JavaScript's
      `substring(0, n)`, which takes code units; and a word's first character
      is its `[0]`. */
  lemma TakeAgreesOnBmp(s: string, n: nat)
    requires InBmp(s)
    ensures var units := Utf16(s);
            Utf16(Take(s, n)) == units[..if n <= |units| then n else |units|]
    ensures |s| > 0 ==> Utf16(s)[0] == s[0] as int
  {
    var t := Take(s, n);
    assert InBmp(t);
    Utf16OfBmp(s);
    Utf16OfBmp(t);
  }

  /** Outside the Basic Multilingual Plane they differ: the first code unit of
      an emoji is a lone high surrogate, not the character. */
  lemma AstralFirstUnitIsSurrogate()
    ensures Utf16("\U{1F600}")[0] == 0xD83D && Utf16("\U{1F600}")[0] != '\U{1F600}' as int
  {
  }
}
