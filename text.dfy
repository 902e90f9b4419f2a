/**
 * The string handling the record store relies on: Python's `str.strip()`,
 * decimal integers as `int()` reads them and `str()` writes them, fixed-width
 * zero-padded digit fields, and splitting and joining on commas.
 */
module Text {
  import opened Wrappers

  /** The characters Python's `str.isspace()` accepts, by code point. */
  predicate IsSpace(c: char) {
    var u := c as int;
    || 0x09 <= u <= 0x0D || 0x1C <= u <= 0x20
    || u == 0x85 || u == 0xA0 || u == 0x1680
    || 0x2000 <= u <= 0x200A
    || u == 0x2028 || u == 0x2029 || u == 0x202F || u == 0x205F || u == 0x3000
  }

  /** The number of whitespace characters `s` starts with. */
  function LeadingSpaces(s: string): (n: nat)
    ensures n <= |s|
    ensures forall k | 0 <= k < n :: IsSpace(s[k])
    ensures n == |s| || !IsSpace(s[n])
  {
    if s == [] || !IsSpace(s[0]) then 0 else 1 + LeadingSpaces(s[1..])
  }

  /** The number of whitespace characters `s` ends with. */
  function TrailingSpaces(s: string): (n: nat)
    ensures n <= |s|
    ensures forall k | |s| - n <= k < |s| :: IsSpace(s[k])
    ensures n == |s| || !IsSpace(s[|s| - 1 - n])
  {
    if s == [] || !IsSpace(s[|s| - 1]) then 0 else 1 + TrailingSpaces(s[..|s| - 1])
  }

  /** `s.strip()`: `s` without its leading and trailing whitespace. */
  function Strip(s: string): (r: string)
    ensures exists i, j ::
              && 0 <= i <= j <= |s| && r == s[i..j]
              && (forall k | 0 <= k < i :: IsSpace(s[k]))
              && (forall k | j <= k < |s| :: IsSpace(s[k]))
    ensures r != [] ==> !IsSpace(r[0]) && !IsSpace(r[|r| - 1])
    ensures r == [] <==> forall k | 0 <= k < |s| :: IsSpace(s[k])
  {
    var i := LeadingSpaces(s);
    var t := s[i..];
    var j := |t| - TrailingSpaces(t);
    assert t[..j] == s[i..i + j];
    t[..j]
  }

  predicate IsDigit(c: char) {
    '0' <= c <= '9'
  }

  /** A non-empty run of ASCII decimal digits. */
  predicate IsDigits(s: string) {
    |s| > 0 && forall k | 0 <= k < |s| :: IsDigit(s[k])
  }

  function DigitValue(c: char): int
    requires IsDigit(c)
  {
    c as int - '0' as int
  }

  function DigitChar(v: int): (c: char)
    requires 0 <= v < 10
    ensures IsDigit(c) && DigitValue(c) == v
  {
    ('0' as int + v) as char
  }

  function Pow10(n: nat): (p: nat)
    ensures p >= 1
  {
    if n == 0 then 1 else 10 * Pow10(n - 1)
  }

  /** The number a string of digits spells in base ten (leading zeros allowed). */
  function DigitsValue(s: string): (v: nat)
    requires forall k | 0 <= k < |s| :: IsDigit(s[k])
    ensures v < Pow10(|s|)
  {
    if s == [] then 0 else DigitsValue(s[..|s| - 1]) * 10 + DigitValue(s[|s| - 1])
  }

  /** `n` written with exactly `width` digits, zero-padded on the left. */
  function PadDigits(n: nat, width: nat): (s: string)
    requires n < Pow10(width)
    ensures |s| == width
    ensures forall k | 0 <= k < |s| :: IsDigit(s[k])
  {
    if width == 0 then [] else PadDigits(n / 10, width - 1) + [DigitChar(n % 10)]
  }

  lemma {:induction false} PadDigitsValue(n: nat, width: nat)
    requires n < Pow10(width)
    ensures DigitsValue(PadDigits(n, width)) == n
  {
    if width > 0 {
      var s := PadDigits(n, width);
      assert s[..|s| - 1] == PadDigits(n / 10, width - 1);
      PadDigitsValue(n / 10, width - 1);
    }
  }

  /** A string of digits is the zero-padded form of its own value. */
  lemma {:induction false} DigitsValuePad(s: string)
    requires forall k | 0 <= k < |s| :: IsDigit(s[k])
    ensures PadDigits(DigitsValue(s), |s|) == s
  {
    if s != [] {
      var pre := s[..|s| - 1];
      var v := DigitsValue(s);
      assert v / 10 == DigitsValue(pre) && v % 10 == DigitValue(s[|s| - 1]);
      DigitsValuePad(pre);
      assert [DigitChar(v % 10)] == [s[|s| - 1]];
      assert s == pre + [s[|s| - 1]];
    }
  }

  /** `str(n)` for a non-negative `n`: its decimal digits without leading zeros. */
  function NatToString(n: nat): (s: string)
    ensures IsDigits(s)
    ensures s[0] == '0' ==> n == 0
    decreases n
  {
    if n < 10 then [DigitChar(n)] else NatToString(n / 10) + [DigitChar(n % 10)]
  }

  lemma {:induction false} NatToStringValue(n: nat)
    ensures DigitsValue(NatToString(n)) == n
    decreases n
  {
    if n >= 10 {
      var s := NatToString(n);
      assert s[..|s| - 1] == NatToString(n / 10);
      NatToStringValue(n / 10);
    }
  }

  /**
   * `str(i)` for an integer `i`: a minus sign exactly for a negative `i`,
   * then the decimal digits of its magnitude, with no leading zero.
   */
  function IntToString(i: int): (s: string)
    ensures |s| > 0 && (s[0] == '-' <==> i < 0)
    ensures var digits := if i < 0 then s[1..] else s;
            IsDigits(digits) && (digits[0] == '0' ==> i == 0)
  {
    if i < 0 then "-" + NatToString(-i) else NatToString(i)
  }

  /**
   * `int(s)` on an already stripped string: an optional sign and one or more
   * ASCII digits; anything else is a `ValueError`.
   */
  function ParseInt(s: string): (r: Option<int>)
    ensures r.Some? <==> IsDigits(s) || (|s| > 1 && (s[0] == '-' || s[0] == '+') && IsDigits(s[1..]))
    ensures r.Some? && IsDigits(s) ==> r.value == DigitsValue(s)
    ensures r.Some? && s[0] == '-' ==> r.value == -(DigitsValue(s[1..]) as int)
    ensures r.Some? && s[0] == '+' ==> r.value == DigitsValue(s[1..])
  {
    if |s| > 0 && s[0] == '-' then
      (if IsDigits(s[1..]) then Some(-(DigitsValue(s[1..]) as int)) else None)
    else if |s| > 0 && s[0] == '+' then
      (if IsDigits(s[1..]) then Some(DigitsValue(s[1..])) else None)
    else if IsDigits(s) then Some(DigitsValue(s))
    else None
  }

  /** Reading back what `str` wrote gives the same integer, negatives included. */
  lemma IntToStringRoundTrip(i: int)
    ensures ParseInt(IntToString(i)) == Some(i)
  {
    if i < 0 {
      NatToStringValue(-i);
      assert IntToString(i)[1..] == NatToString(-i);
    } else {
      NatToStringValue(i);
    }
  }

  /** The fields joined with single commas, as an f-string `f"{a},{b},…"` writes them. */
  function JoinCommas(fields: seq<string>): string
    requires |fields| > 0
  {
    if |fields| == 1 then fields[0] else fields[0] + "," + JoinCommas(fields[1..])
  }

  /** `s.split(",")`: the pieces between commas (one more than there are commas). */
  function SplitCommas(s: string): (r: seq<string>)
    ensures |r| > 0
  {
    if s == [] then [""]
    else if s[0] == ',' then [""] + SplitCommas(s[1..])
    else var rest := SplitCommas(s[1..]); [[s[0]] + rest[0]] + rest[1..]
  }

  lemma {:induction false} SplitCommaFree(a: string, t: string)
    requires ',' !in a
    ensures SplitCommas(a + t) == [a + SplitCommas(t)[0]] + SplitCommas(t)[1..]
  {
    if a != [] {
      assert (a + t)[0] == a[0];
      assert (a + t)[1..] == a[1..] + t;
      SplitCommaFree(a[1..], t);
      var rest := SplitCommas(a[1..] + t);
      assert rest[0] == a[1..] + SplitCommas(t)[0];
      assert rest[1..] == SplitCommas(t)[1..];
      assert [a[0]] + rest[0] == a + SplitCommas(t)[0];
    } else {
      var r := SplitCommas(t);
      assert a + t == t && a + r[0] == r[0];
      assert r == [r[0]] + r[1..];
    }
  }

  /** Splitting on commas undoes joining with commas when no field holds a comma. */
  lemma {:induction false} SplitJoin(fields: seq<string>)
    requires |fields| > 0
    requires forall k | 0 <= k < |fields| :: ',' !in fields[k]
    ensures SplitCommas(JoinCommas(fields)) == fields
  {
    if |fields| == 1 {
      SplitCommaFree(fields[0], "");
      assert fields[0] + "" == fields[0];
    } else {
      var tail := "," + JoinCommas(fields[1..]);
      assert forall k | 0 <= k < |fields[1..]| :: ',' !in fields[1..][k] by {
        forall k | 0 <= k < |fields[1..]| ensures ',' !in fields[1..][k] {
          assert fields[1..][k] == fields[k + 1];
        }
      }
      SplitJoin(fields[1..]);
      SplitCommaFree(fields[0], tail);
      assert tail[1..] == JoinCommas(fields[1..]);
      var pieces := SplitCommas(tail);
      assert pieces == [""] + fields[1..];
      assert pieces[0] == "" && pieces[1..] == fields[1..];
      assert fields[0] + tail == JoinCommas(fields);
      assert fields[0] + "" == fields[0];
      assert fields == [fields[0]] + fields[1..];
    }
  }
}
