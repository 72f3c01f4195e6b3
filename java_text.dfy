/** The pieces of java.lang the core relies on: 32-bit ints, Integer.toString,
    Integer.parseInt, String.trim, String.toLowerCase, startsWith, indexOf. */
module JavaText {
  import opened Wrappers

  const IntMin: int := -0x8000_0000
  const IntMax: int := 0x7fff_ffff

  /** A Java `int`. */
  type Int32 = x: int | IntMin <= x <= IntMax

  /** Two's-complement truncation of an exact result to 32 bits, as Java's int
      arithmetic does. */
  function Wrap32(x: int): (r: Int32)
    ensures IntMin <= x <= IntMax ==> r == x
  {
    (x - IntMin) % 0x1_0000_0000 + IntMin
  }

  /** The wrapped value differs from the exact one by a multiple of 2^32. */
  lemma Wrap32Congruent(x: int)
    ensures (Wrap32(x) - x) % 0x1_0000_0000 == 0
  {
  }

  /** Wrapping twice is wrapping once; inner wraps can be dropped from a sum. */
  lemma Wrap32Sum(a: int, b: int)
    ensures Wrap32(Wrap32(a) + b) == Wrap32(a + b)
  {
    Wrap32Congruent(a);
    var k := (Wrap32(a) - a) / 0x1_0000_0000;
    assert Wrap32(a) == a + k * 0x1_0000_0000;
    assert Wrap32(a) + b - IntMin == (a + b - IntMin) + k * 0x1_0000_0000;
  }

  const LongMin: int := -0x8000_0000_0000_0000
  const LongMax: int := 0x7fff_ffff_ffff_ffff

  /** A Java `long`. */
  type Int64 = x: int | LongMin <= x <= LongMax

  /** Java's long arithmetic: the exact result truncated to 64 bits. */
  function Wrap64(x: int): (r: Int64)
    ensures LongMin <= x <= LongMax ==> r == x
    ensures (r - x) % 0x1_0000_0000_0000_0000 == 0
  {
    (x - LongMin) % 0x1_0000_0000_0000_0000 + LongMin
  }

  /** A Java `byte`. */
  type Byte = b: int | -128 <= b <= 127

  // ---------------------------------------------------------------- digits

  predicate IsDigit(c: char) { '0' <= c <= '9' }

  predicate AllDigits(s: string) { forall i :: 0 <= i < |s| ==> IsDigit(s[i]) }

  function DigitChar(d: nat): (c: char)
    requires d < 10
    ensures IsDigit(c)
  {
    (d + '0' as int) as char
  }

  function DigitOf(c: char): (d: nat)
    requires IsDigit(c)
    ensures d < 10 && DigitChar(d) == c
  {
    c as int - '0' as int
  }

  /** Decimal digits of a natural number, most significant first, no leading zeros. */
  function Digits(n: nat): (s: string)
    ensures |s| > 0 && AllDigits(s)
  {
    if n < 10 then [DigitChar(n)] else Digits(n / 10) + [DigitChar(n % 10)]
  }

  /** The value of a string of decimal digits. */
  function DigitsValue(s: string): nat
    requires AllDigits(s)
  {
    if |s| == 0 then 0 else DigitsValue(s[..|s| - 1]) * 10 + DigitOf(s[|s| - 1])
  }

  /** Integer.toString / StringBuilder.append(int). */
  function Decimal(n: int): (s: string)
    ensures |s| > 0
  {
    if n < 0 then "-" + Digits(-n) else Digits(n)
  }

  lemma {:induction false} DigitsValueOfDigits(n: nat)
    ensures DigitsValue(Digits(n)) == n
  {
    var s := Digits(n);
    if n < 10 {
      assert s[..|s| - 1] == [];
    } else {
      assert s[..|s| - 1] == Digits(n / 10);
      DigitsValueOfDigits(n / 10);
    }
  }

  /** More digits never means a smaller number. */
  lemma {:induction false} DigitsLengthMonotone(n: nat, m: nat)
    requires n <= m
    ensures |Digits(n)| <= |Digits(m)|
  {
    if n >= 10 {
      DigitsLengthMonotone(n / 10, m / 10);
    }
  }

  lemma DecimalOfIntMax()
    ensures Decimal(IntMax) == "2147483647"
  {
    assert Digits(2) == "2";
    assert Digits(21) == "21";
    assert Digits(214) == "214";
    assert Digits(2147) == "2147";
    assert Digits(21474) == "21474";
    assert Digits(214748) == "214748";
    assert Digits(2147483) == "2147483";
    assert Digits(21474836) == "21474836";
    assert Digits(214748364) == "214748364";
  }

  /** Every non-negative int prints in at most as many characters as Integer.MAX_VALUE. */
  lemma DecimalLengthAtMostIntMax(n: int)
    requires 0 <= n <= IntMax
    ensures |Decimal(n)| <= |Decimal(IntMax)| == 10
  {
    DigitsLengthMonotone(n, IntMax);
    DecimalOfIntMax();
  }

  /** Integer.parseInt raised NumberFormatException on this input. */
  datatype NumberFormatException = NumberFormatException(input: string)

  /** Integer.parseInt(s) in radix 10: an optional sign, at least one digit,
      and a value that fits in an int. */
  function ParseInt(s: string): (r: Result<Int32, NumberFormatException>)
    ensures r.Err? ==> r.error.input == s
    ensures r.Ok? ==> |s| > 0
  {
    var signed := |s| > 0 && (s[0] == '-' || s[0] == '+');
    var body := if signed then s[1..] else s;
    if |body| == 0 || !AllDigits(body) then Err(NumberFormatException(s))
    else
      var v: int := if signed && s[0] == '-' then 0 - (DigitsValue(body) as int) else DigitsValue(body);
      if IntMin <= v <= IntMax then Ok(v) else Err(NumberFormatException(s))
  }

  /** Parsing what Integer.toString printed gives the int back. */
  lemma ParseIntOfDecimal(n: Int32)
    ensures ParseInt(Decimal(n)) == Ok(n)
  {
    var s := Decimal(n);
    if n < 0 {
      var m: nat := -(n as int);
      assert s == "-" + Digits(m);
      assert s[1..] == Digits(m);
      DigitsValueOfDigits(m);
    } else {
      assert s == Digits(n);
      assert IsDigit(s[0]);
      DigitsValueOfDigits(n);
    }
  }

  // ---------------------------------------------------------------- strings

  predicate StartsWith(s: string, prefix: string) {
    |prefix| <= |s| && s[..|prefix|] == prefix
  }

  /** Prefixes that differ in their first character cannot both start a string. */
  lemma PrefixesExclusive(s: string, p: string, q: string)
    requires |p| > 0 && |q| > 0 && p[0] != q[0]
    ensures !(StartsWith(s, p) && StartsWith(s, q))
  {
  }

  /** String.indexOf(char): the first position of c, or -1. */
  function IndexOf(s: string, c: char): (r: int)
    ensures -1 <= r < |s|
    ensures r == -1 <==> c !in s
    ensures r >= 0 ==> s[r] == c && c !in s[..r]
  {
    if |s| == 0 then -1
    else if s[0] == c then 0
    else
      var k := IndexOf(s[1..], c);
      assert c in s[1..] ==> c in s;
      assert c in s && s[0] != c ==> c in s[1..] by {
        if c in s && s[0] != c {
          var i :| 0 <= i < |s| && s[i] == c;
          assert s[1..][i - 1] == c;
        }
      }
      if k == -1 then -1
      else
        assert s[..k + 1] == [s[0]] + s[1..][..k];
        k + 1
  }

  /** A character absent from a prefix is first found right after it. */
  lemma IndexOfFirst(pre: string, c: char, rest: string)
    requires c !in pre
    ensures IndexOf(pre + [c] + rest, c) == |pre|
  {
    var s := pre + [c] + rest;
    var r := IndexOf(s, c);
    assert s[|pre|] == c;
    assert forall i :: 0 <= i < |pre| ==> s[i] == pre[i];
    assert forall j :: 0 <= j < r ==> s[..r][j] == s[j];
  }

  /** Past a prefix without c, indexOf finds c where it finds it in the rest. */
  lemma IndexOfShift(pre: string, c: char, rest: string)
    requires c !in pre
    ensures IndexOf(pre + rest, c) == if IndexOf(rest, c) == -1 then -1 else |pre| + IndexOf(rest, c)
  {
    var s := pre + rest;
    var r := IndexOf(s, c);
    var q := IndexOf(rest, c);
    assert forall i :: 0 <= i < |pre| ==> s[i] == pre[i];
    assert forall i :: |pre| <= i < |s| ==> s[i] == rest[i - |pre|];
    assert forall j :: 0 <= j < r ==> s[..r][j] == s[j];
    assert forall j :: 0 <= j < q ==> rest[..q][j] == rest[j];
    if q >= 0 {
      assert s[|pre| + q] == c;
    }
  }

  /** The characters String.trim strips: every code point up to U+0020. */
  predicate IsTrimmable(c: char) { c <= ' ' }

  function TrimLeft(s: string): (r: string)
    ensures r == [] || !IsTrimmable(r[0])
    ensures |r| <= |s| && r == s[|s| - |r|..]
  {
    if |s| > 0 && IsTrimmable(s[0]) then TrimLeft(s[1..]) else s
  }

  function TrimRight(s: string): (r: string)
    ensures r == [] || !IsTrimmable(r[|r| - 1])
    ensures |r| <= |s| && r == s[..|r|]
  {
    if |s| > 0 && IsTrimmable(s[|s| - 1]) then TrimRight(s[..|s| - 1]) else s
  }

  /** String.trim. */
  function Trim(s: string): string {
    TrimRight(TrimLeft(s))
  }

  lemma TrimRightKeepsHead(t: string)
    requires |t| > 0 && !IsTrimmable(t[0])
    ensures |TrimRight(t)| > 0 && TrimRight(t)[0] == t[0]
  {
  }

  /** Trimming a trimmed string changes nothing. */
  lemma TrimIdempotent(s: string)
    ensures Trim(Trim(s)) == Trim(s)
  {
    var t := TrimLeft(s);
    var u := TrimRight(t);
    if |t| > 0 {
      TrimRightKeepsHead(t);
    }
    assert TrimLeft(u) == u;
  }

  /** A string with no whitespace at either end is its own trim. */
  lemma TrimNoop(s: string)
    requires |s| > 0 && !IsTrimmable(s[0]) && !IsTrimmable(s[|s| - 1])
    ensures Trim(s) == s
  {
  }

  function LowerChar(c: char): char {
    if 'A' <= c <= 'Z' then (c as int + 32) as char else c
  }

  /** String.toLowerCase, restricted to the ASCII letters. */
  function ToLower(s: string): (r: string)
    ensures |r| == |s|
    ensures forall i :: 0 <= i < |s| ==> r[i] == LowerChar(s[i])
  {
    seq(|s|, i requires 0 <= i < |s| => LowerChar(s[i]))
  }

  /** A string without upper-case ASCII letters is its own lower case. */
  lemma ToLowerNoop(s: string)
    requires forall i :: 0 <= i < |s| ==> !('A' <= s[i] <= 'Z')
    ensures ToLower(s) == s
  {
  }

  /** Text that is already trimmed and in lower case is its own normal form. */
  lemma TrimLowerNoop(s: string)
    requires |s| > 0 && !IsTrimmable(s[0]) && !IsTrimmable(s[|s| - 1])
    requires forall i :: 0 <= i < |s| ==> !('A' <= s[i] <= 'Z')
    ensures ToLower(Trim(s)) == s
  {
    TrimNoop(s);
    ToLowerNoop(s);
  }

  lemma ToLowerIdempotent(s: string)
    ensures ToLower(ToLower(s)) == ToLower(s)
  {
  }

  lemma {:induction false} TrimLeftLower(s: string)
    ensures TrimLeft(ToLower(s)) == ToLower(TrimLeft(s))
  {
    if |s| > 0 && IsTrimmable(s[0]) {
      assert ToLower(s)[1..] == ToLower(s[1..]);
      TrimLeftLower(s[1..]);
    }
  }

  lemma {:induction false} TrimRightLower(s: string)
    ensures TrimRight(ToLower(s)) == ToLower(TrimRight(s))
  {
    if |s| > 0 && IsTrimmable(s[|s| - 1]) {
      assert ToLower(s)[..|s| - 1] == ToLower(s[..|s| - 1]);
      TrimRightLower(s[..|s| - 1]);
    }
  }

  /** Lower-casing never turns a letter into trimmable whitespace or back, so
      the two normalisations commute. */
  lemma TrimLowerCommute(s: string)
    ensures Trim(ToLower(s)) == ToLower(Trim(s))
  {
    TrimLeftLower(s);
    TrimRightLower(TrimLeft(s));
  }

  /** `n` spaces. */
  function Spaces(n: nat): (r: string)
    ensures |r| == n && forall i :: 0 <= i < n ==> r[i] == ' '
  {
    if n == 0 then [] else Spaces(n - 1) + " "
  }

  /** `needle` occurs in `hay` starting at position i. */
  predicate OccursAt(hay: string, needle: string, i: int) {
    0 <= i <= |hay| - |needle| && hay[i..i + |needle|] == needle
  }

  /** A text placed between two others occurs right after the first. */
  lemma OccursBetween(a: string, x: string, b: string)
    ensures OccursAt(a + x + b, x, |a|)
  {
    assert (a + x + b)[|a|..|a| + |x|] == x;
  }

  /** `needle` occurs somewhere in `hay`. */
  ghost predicate Contains(hay: string, needle: string) {
    exists i :: OccursAt(hay, needle, i)
  }

  /** String.contains: a search for `needle` from position `from` on. */
  function ContainsFrom(hay: string, needle: string, from: nat): (b: bool)
    ensures b <==> exists i :: from <= i && OccursAt(hay, needle, i)
    decreases |hay| - from
  {
    if from + |needle| > |hay| then false
    else OccursAt(hay, needle, from) || ContainsFrom(hay, needle, from + 1)
  }

  /** String.contains. */
  function ContainsText(hay: string, needle: string): (b: bool)
    ensures b <==> Contains(hay, needle)
  {
    ContainsFrom(hay, needle, 0)
  }

  /** The texts joined with the separator between them. */
  function Join(texts: seq<string>, separator: string): string {
    if |texts| == 0 then ""
    else if |texts| == 1 then texts[0]
    else Join(texts[..|texts| - 1], separator) + separator + texts[|texts| - 1]
  }

  /** Boolean.toString. */
  function BooleanText(b: bool): string {
    if b then "true" else "false"
  }

  /** The concatenation of a list of strings. */
  function Concat(parts: seq<string>): string {
    if |parts| == 0 then [] else Concat(parts[..|parts| - 1]) + parts[|parts| - 1]
  }
}
