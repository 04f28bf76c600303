/** The settings of src/tracker/constants.ts: `parseInt(setting) || default`,
    scaled from seconds to milliseconds where the name says so. A setting is
    the value of the environment variable, `None` when it is unset. */
module TrackerConstants {
  import opened Wrappers
  import Text

  /** The code points ECMAScript counts as WhiteSpace or LineTerminator,
      which `parseInt` skips before the number. */
  predicate JsWhitespace(c: char) {
    || c == '\t' || c == '\n' || c == '\U{000B}' || c == '\U{000C}' || c == '\r' || c == ' '
    || c == '\U{00A0}' || c == '\U{1680}' || ('\U{2000}' <= c <= '\U{200A}')
    || c == '\U{2028}' || c == '\U{2029}' || c == '\U{202F}' || c == '\U{205F}'
    || c == '\U{3000}' || c == '\U{FEFF}'
  }

  /** The text with its leading whitespace removed. */
  function TrimStart(s: string): (r: string)
    ensures |r| <= |s| && r == s[|s| - |r|..]
    ensures forall i :: 0 <= i < |s| - |r| ==> JsWhitespace(s[i])
    ensures |r| > 0 ==> !JsWhitespace(r[0])
    decreases |s|
  {
    if |s| > 0 && JsWhitespace(s[0]) then
      var r := TrimStart(s[1..]);
      assert forall i :: 1 <= i < |s| - |r| ==> s[i] == s[1..][i - 1];
      r
    else s
  }

  /** The value of a digit in radix up to 36; 36 for any other character. */
  function DigitValue(c: char): (v: nat)
    ensures v <= 36
  {
    if '0' <= c <= '9' then c as int - '0' as int
    else if 'a' <= c <= 'z' then c as int - 'a' as int + 10
    else if 'A' <= c <= 'Z' then c as int - 'A' as int + 10
    else 36
  }

  /** The length of the longest prefix of digits of the radix. */
  function DigitPrefixLen(s: string, radix: nat): (n: nat)
    ensures n <= |s|
    ensures forall i :: 0 <= i < n ==> DigitValue(s[i]) < radix
    ensures n < |s| ==> DigitValue(s[n]) >= radix
    decreases |s|
  {
    if |s| == 0 || DigitValue(s[0]) >= radix then 0 else 1 + DigitPrefixLen(s[1..], radix)
  }

  /** The number a string of digits spells in the radix, most significant first. */
  function DigitsValue(ds: string, radix: nat): nat
    decreases |ds|
  {
    if |ds| == 0 then 0 else DigitsValue(ds[..|ds| - 1], radix) * radix + DigitValue(ds[|ds| - 1])
  }

  /** The longest run of digits of the radix and its value; `None` when
      the run is empty. */
  function ReadDigits(ds: string, radix: nat): Option<nat> {
    var n := DigitPrefixLen(ds, radix);
    if n == 0 then None else Some(DigitsValue(ds[..n], radix))
  }

  /** The unsigned part of `parseInt`: a `0x`/`0X` prefix selects radix 16,
      then the longest run of digits is read; `None` when the run is empty. */
  function ParseMagnitude(u: string): Option<nat> {
    if |u| >= 2 && u[0] == '0' && (u[1] == 'x' || u[1] == 'X') then ReadDigits(u[2..], 16)
    else ReadDigits(u, 10)
  }

  /** `parseInt(text)` with no radix: skip whitespace, take one sign, then
      the magnitude; `None` is NaN. */
  function ParseInt(text: string): (r: Option<int>)
    ensures r.Some? ==> exists k :: 0 <= k < |text| && '0' <= text[k] <= '9'
    ensures r.Some? && r.value < 0 ==> exists k :: 0 <= k < |text| && text[k] == '-'
  {
    var t := TrimStart(text);
    var signed := |t| > 0 && (t[0] == '-' || t[0] == '+');
    var rest := if signed then t[1..] else t;
    var start := |text| - |t| + (if signed then 1 else 0);
    assert rest == text[start..];
    match ParseMagnitude(rest)
    case None => None
    case Some(m) =>
      MagnitudeStartsWithDigit(rest);
      assert text[start] == rest[0];
      if signed && t[0] == '-' then
        assert text[|text| - |t|] == '-';
        Some(-(m as int))
      else Some(m)
  }

  /** A magnitude is only read from text that starts with a decimal digit
      (a hexadecimal one starts with its `0x`). */
  lemma MagnitudeStartsWithDigit(u: string)
    requires ParseMagnitude(u).Some?
    ensures |u| > 0 && '0' <= u[0] <= '9'
  {
    if !(|u| >= 2 && u[0] == '0' && (u[1] == 'x' || u[1] == 'X')) {
      assert DigitPrefixLen(u, 10) > 0;
    }
  }

  /** `parseInt(process.env.X!)`: an unset variable is the text "undefined". */
  function ParseSetting(setting: Option<string>): (r: Option<int>)
    ensures setting.None? ==> r.None?
  {
    var text := setting.GetOr("undefined");
    assert setting.None? ==> forall k :: 0 <= k < |text| ==> !('0' <= text[k] <= '9');
    ParseInt(text)
  }

  /** `parsed || fallback`: NaN and 0 are falsy. */
  function OrDefault(parsed: Option<int>, fallback: int): (r: int)
    ensures parsed.None? || parsed.value == 0 ==> r == fallback
    ensures parsed.Some? && parsed.value != 0 ==> r == parsed.value
    ensures fallback != 0 ==> r != 0
  {
    if parsed.Some? && parsed.value != 0 then parsed.value else fallback
  }

  /** `TIMEOUT`: the poll period in milliseconds, 14400 s by default. */
  function Timeout(setting: Option<string>): (r: int)
    ensures r != 0 && r % 1000 == 0
    ensures setting.None? ==> r == 14_400_000
  {
    var seconds := OrDefault(ParseSetting(setting), 14400);
    WholeThousands(seconds);
    seconds * 1000
  }

  /** `MAX_RETRY`: the number of login attempts, 3 by default, not scaled. */
  function MaxRetry(setting: Option<string>): (r: int)
    ensures r != 0
    ensures setting.None? ==> r == 3
  {
    OrDefault(ParseSetting(setting), 3)
  }

  /** `LOGIN_RETRY_DELAY`: the pause between login attempts in
      milliseconds; the default of 3000 is scaled too. */
  function LoginRetryDelay(setting: Option<string>): (r: int)
    ensures r != 0 && r % 1000 == 0
    ensures setting.None? ==> r == 3_000_000
  {
    var seconds := OrDefault(ParseSetting(setting), 3000);
    WholeThousands(seconds);
    seconds * 1000
  }

  // ---------------------------------------------------------------------
  // Properties

  lemma DigitValueOfDigitChar(d: nat)
    requires d < 10
    ensures DigitValue(Text.DigitChar(d)) == d
  {
  }

  /** Decimal rendering and digit reading are inverse. */
  lemma {:induction false} DigitsValueOfNat(n: nat)
    ensures DigitsValue(Text.NatToString(n), 10) == n
    decreases n
  {
    var s := Text.NatToString(n);
    if n < 10 {
      DigitValueOfDigitChar(n);
      assert s[..0] == [];
    } else {
      DigitsValueOfNat(n / 10);
      DigitValueOfDigitChar(n % 10);
      assert s[..|s| - 1] == Text.NatToString(n / 10);
    }
  }

  /** The digit run of a rendered number stops where the number ends. */
  lemma {:induction false} DigitPrefixOfNat(ds: string, suffix: string)
    requires forall i :: 0 <= i < |ds| ==> '0' <= ds[i] <= '9'
    requires |suffix| == 0 || DigitValue(suffix[0]) >= 10
    ensures DigitPrefixLen(ds + suffix, 10) == |ds|
    decreases |ds|
  {
    if |ds| > 0 {
      assert (ds + suffix)[1..] == ds[1..] + suffix;
      DigitPrefixOfNat(ds[1..], suffix);
    } else {
      assert ds + suffix == suffix;
    }
  }

  /** The magnitude of a rendered natural number followed by non-digit
      text (other than an `x` right after a lone `0`) is that number. */
  lemma MagnitudeOfRendered(m: nat, suffix: string)
    requires |suffix| == 0 || (DigitValue(suffix[0]) >= 10 && suffix[0] != 'x' && suffix[0] != 'X')
    ensures ParseMagnitude(Text.NatToString(m) + suffix) == Some(m)
  {
    var ds := Text.NatToString(m);
    var u := ds + suffix;
    if |u| >= 2 && u[0] == '0' {
      if m != 0 {
        NatLeadingDigit(m);
      } else {
        assert ds == "0";
      }
      assert u[1] != 'x' && u[1] != 'X';
    }
    DigitPrefixOfNat(ds, suffix);
    assert u[..|ds|] == ds;
    DigitsValueOfNat(m);
  }

  /** `parseInt` reads back a rendered integer, whatever non-digit text
      follows it, except that `0` followed by `x` would read as hex. */
  lemma ParseIntOfRendered(n: int, suffix: string)
    requires |suffix| == 0 || (DigitValue(suffix[0]) >= 10 && suffix[0] != 'x' && suffix[0] != 'X')
    ensures ParseInt(Text.IntToString(n) + suffix) == Some(n)
  {
    if n < 0 {
      ParseIntOfNegative(n, suffix);
    } else {
      ParseIntOfNatural(n, suffix);
    }
  }

  lemma ParseIntOfNegative(n: int, suffix: string)
    requires n < 0
    requires |suffix| == 0 || (DigitValue(suffix[0]) >= 10 && suffix[0] != 'x' && suffix[0] != 'X')
    ensures ParseInt(Text.IntToString(n) + suffix) == Some(n)
  {
    var m: nat := -n;
    var t := Text.IntToString(n) + suffix;
    var u := Text.NatToString(m) + suffix;
    assert t == "-" + u by { RenderedNegative(n, suffix); }
    assert ParseMagnitude(u) == Some(m) by { MagnitudeOfRendered(m, suffix); }
    ParseIntMinus(t, u, m);
  }

  lemma ParseIntOfNatural(n: nat, suffix: string)
    requires |suffix| == 0 || (DigitValue(suffix[0]) >= 10 && suffix[0] != 'x' && suffix[0] != 'X')
    ensures ParseInt(Text.IntToString(n) + suffix) == Some(n)
  {
    var text := Text.IntToString(n) + suffix;
    assert text == Text.NatToString(n) + suffix;
    assert text[0] == Text.NatToString(n)[0];
    MagnitudeOfRendered(n, suffix);
    ParseIntUnsigned(text);
  }

  /** A negative number renders as `-` and then its magnitude. */
  lemma RenderedNegative(n: int, suffix: string)
    requires n < 0
    ensures Text.IntToString(n) + suffix == "-" + (Text.NatToString(-n) + suffix)
  {
  }

  /** Text that starts with a digit is read by the unsigned rule. */
  lemma ParseIntUnsigned(t: string)
    requires |t| > 0 && '0' <= t[0] <= '9'
    ensures ParseInt(t) == ParseMagnitude(t)
  {
    TrimStartKeeps(t);
  }

  /** `-` followed by a magnitude is read as its negation. */
  lemma ParseIntMinus(t: string, u: string, m: nat)
    requires t == "-" + u && ParseMagnitude(u) == Some(m)
    ensures ParseInt(t) == Some(-(m as int))
  {
    assert t[0] == '-' && t[1..] == u;
    TrimStartKeeps(t);
  }

  /** Text that starts with a digit or `-` has no leading whitespace. */
  lemma TrimStartKeeps(s: string)
    requires |s| > 0 && ('0' <= s[0] <= '9' || s[0] == '-')
    ensures TrimStart(s) == s
  {
    assert !JsWhitespace(s[0]);
  }

  /** A positive number is rendered without leading zero. */
  lemma {:induction false} NatLeadingDigit(m: nat)
    requires m != 0
    ensures Text.NatToString(m)[0] != '0'
    decreases m
  {
    if m >= 10 {
      NatLeadingDigit(m / 10);
    }
  }

  /** A setting of 0 is falsy and takes the default too. */
  lemma ZeroDefaults()
    ensures Timeout(Some("0")) == 14_400_000
    ensures MaxRetry(Some("0")) == 3
    ensures LoginRetryDelay(Some("0")) == 3_000_000
  {
    ParseIntOfRendered(0, "");
    assert Text.IntToString(0) + "" == "0";
    assert ParseSetting(Some("0")) == Some(0);
  }
  /** A non-zero integer setting is used as it is: seconds become
      milliseconds, and a negative retry count passes through. */
  lemma IntegerSettings(n: int, suffix: string)
    requires n != 0
    requires |suffix| == 0 || (DigitValue(suffix[0]) >= 10 && suffix[0] != 'x' && suffix[0] != 'X')
    ensures Timeout(Some(Text.IntToString(n) + suffix)) == n * 1000
    ensures MaxRetry(Some(Text.IntToString(n) + suffix)) == n
    ensures LoginRetryDelay(Some(Text.IntToString(n) + suffix)) == n * 1000
  {
    ParseIntOfRendered(n, suffix);
  }

  lemma WholeThousands(k: int)
    ensures (k * 1000) % 1000 == 0
    ensures k != 0 ==> k * 1000 != 0
  {
  }
}
