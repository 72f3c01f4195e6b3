/** SniffyCompatSelectorProviderModule: the major Java version read from the
    java.version system property, and the gate that skips the compatibility
    selector provider from Java 8 on. The property value is a parameter. */
module CompatVersion {
  import opened Wrappers
  import opened JavaText

  /** What getVersion can throw. */
  datatype VersionError =
    | StringIndexOutOfBounds   // substring(2, 3) of a string shorter than 3
    | NumberFormat(cause: NumberFormatException)

  /** The text before the first c, or all of s when there is none:
      s.substring(0, s.indexOf(c)) behind an indexOf test. */
  function Before(s: string, c: char): (r: string)
    ensures c !in r
  {
    var i := IndexOf(s, c);
    if i != -1 then s[..i] else s
  }

  /** The text getVersion hands to Integer.parseInt. */
  function VersionText(version: string): (r: Result<string, VersionError>)
    ensures r.Err? <==> StartsWith(version, "1.") && |version| < 3
    ensures r.Ok? ==> '-' !in r.value
  {
    var major :=
      if StartsWith(version, "1.") then
        if |version| < 3 then Err(StringIndexOutOfBounds) else Ok(version[2..3])
      else Ok(Before(version, '.'));
    match major
    case Err(x) => Err(x)
    case Ok(v) => Ok(Before(v, '-'))
  }

  /** getVersion. */
  function GetVersion(version: string): (r: Result<Int32, VersionError>)
    ensures r.Err? && r.error.NumberFormat? <==>
      VersionText(version).Ok? && ParseInt(VersionText(version).value).Err?
    ensures r.Ok? ==> VersionText(version).Ok? && ParseInt(VersionText(version).value) == Ok(r.value)
  {
    match VersionText(version)
    case Err(x) => Err(x)
    case Ok(v) =>
      match ParseInt(v)
      case Err(x) => Err(NumberFormat(x))
      case Ok(n) => Ok(n)
  }

  /** initialize goes on to install the compatibility provider only below
      Java 8; an unparsable version propagates out of initialize. */
  function InstallsCompatProvider(version: string): (r: Result<bool, VersionError>)
    ensures r.Ok? <==> GetVersion(version).Ok?
    ensures r.Ok? ==> (r.value <==> GetVersion(version).value < 8)
  {
    match GetVersion(version)
    case Err(x) => Err(x)
    case Ok(n) => Ok(n < 8)
  }

  /** The pre-9 scheme "1.<d>...": the single character after "1." is the version. */
  lemma {:induction false} LegacyScheme(version: string)
    requires StartsWith(version, "1.") && |version| >= 3 && IsDigit(version[2])
    ensures GetVersion(version) == Ok(DigitOf(version[2]) as Int32)
  {
    var d := DigitOf(version[2]);
    assert version[2..3] == Digits(d);
    ParseIntOfDecimal(d);
  }

  /** Before a prefix without c, then c: the prefix. */
  lemma BeforeFirst(pre: string, c: char, rest: string)
    requires c !in pre
    ensures Before(pre + [c] + rest, c) == pre
  {
    IndexOfFirst(pre, c, rest);
    assert (pre + [c] + rest)[..|pre|] == pre;
  }

  /** Before, past a prefix without c: the prefix, then what comes before c in the rest. */
  lemma BeforeShift(pre: string, c: char, rest: string)
    requires c !in pre
    ensures Before(pre + rest, c) == pre + Before(rest, c)
  {
    IndexOfShift(pre, c, rest);
    var q := IndexOf(rest, c);
    if q != -1 {
      assert (pre + rest)[..|pre| + q] == pre + rest[..q];
    }
  }

  /** The text before the first '.' or '-' of a version from Java 9 on. */
  lemma ModernText(n: nat, sep: char, rest: string)
    requires sep == '.' || sep == '-'
    requires !StartsWith(Digits(n) + [sep] + rest, "1.")
    ensures VersionText(Digits(n) + [sep] + rest) == Ok(Digits(n))
  {
    var d := Digits(n);
    assert '.' !in d && '-' !in d by {
      forall i | 0 <= i < |d| ensures d[i] != '.' && d[i] != '-' {
        assert IsDigit(d[i]);
      }
    }
    if sep == '.' {
      BeforeFirst(d, '.', rest);
      IndexOfShift(d, '-', []);
      assert d + [] == d;
    } else {
      BeforeShift(d + [sep], '.', rest);
      BeforeFirst(d, '-', Before(rest, '.'));
    }
  }

  /** The scheme from Java 9 on: the number before the first '.' or '-'. */
  lemma ModernScheme(n: nat, sep: char, rest: string)
    requires n <= IntMax && (sep == '.' || sep == '-')
    requires !StartsWith(Digits(n) + [sep] + rest, "1.")
    ensures GetVersion(Digits(n) + [sep] + rest) == Ok(n as Int32)
  {
    ModernText(n, sep, rest);
    ParseIntOfDecimal(n);
  }

  /** An all-digit version is the version. */
  lemma PlainNumber(n: nat)
    requires n <= IntMax && !StartsWith(Digits(n), "1.")
    ensures GetVersion(Digits(n)) == Ok(n as Int32)
  {
    var d := Digits(n);
    assert '.' !in d && '-' !in d by {
      forall i | 0 <= i < |d| ensures d[i] != '.' && d[i] != '-' {
        assert IsDigit(d[i]);
      }
    }
    ParseIntOfDecimal(n);
  }

  lemma Java8()
    ensures GetVersion("1.8.0_181") == Ok(8)
    ensures InstallsCompatProvider("1.8.0_181") == Ok(false)
    ensures InstallsCompatProvider("1.7.0_80") == Ok(true)
  {
    LegacyScheme("1.8.0_181");
    LegacyScheme("1.7.0_80");
  }

  lemma Java11()
    ensures GetVersion("11.0.2") == Ok(11)
  {
    assert Digits(11) == "11";
    assert Digits(11) + ['.'] + "0.2" == "11.0.2";
    assert "11.0.2"[1] != '.';
    ModernScheme(11, '.', "0.2");
  }

  lemma Java17EarlyAccess()
    ensures GetVersion("17-ea") == Ok(17)
  {
    assert Digits(17) == "17";
    assert Digits(17) + ['-'] + "ea" == "17-ea";
    assert "17-ea"[1] != '.';
    ModernScheme(17, '-', "ea");
  }

  /** "1." has no character at index 2. */
  lemma TooShortLegacy()
    ensures GetVersion("1.") == Err(StringIndexOutOfBounds)
  {
  }

  /** A version text with no digits is a NumberFormatException. */
  lemma NotANumber()
    ensures GetVersion("ea") == Err(NumberFormat(NumberFormatException("ea")))
  {
    assert !IsDigit("ea"[0]);
  }
}
