/**
 * Python's conversions between integers and their decimal text: `str(n)` for an
 * `int` and `int(s)` for a `str` (base 10). The bot writes message ids as dict keys
 * with `str(msg.id)`, reads them back with `int(msg_id)`, parses role mentions with
 * `int(mention[3:-1])` and compares selector values with `str(role.id)`.
 */
module Numerals {
  import opened Wrappers

  predicate IsDigit(c: char) {
    '0' <= c <= '9'
  }

  function DigitChar(d: nat): (c: char)
    requires d < 10
    ensures IsDigit(c)
  {
    ('0' as int + d) as char
  }

  /** Decimal digits of a natural number, most significant first, no leading zero. */
  function NatToString(n: nat): (s: string)
    decreases n
  {
    if n < 10 then [DigitChar(n)] else NatToString(n / 10) + [DigitChar(n % 10)]
  }

  /** `str(n)` for a Python `int`: a minus sign exactly for a negative number, then digits. */
  function IntToString(n: int): (s: string)
    ensures |s| > 0
    ensures s[0] == '-' <==> n < 0
    ensures forall i :: 0 <= i < |s| ==> s[i] == '-' || IsDigit(s[i])
    ensures forall i :: 0 < i < |s| ==> IsDigit(s[i])
  {
    NatToStringDigits(if n < 0 then -n else n);
    if n < 0 then "-" + NatToString(-n) else NatToString(n)
  }

  /**
   * The digit part that Python's `int()` accepts in base 10 and the number it
   * denotes: ASCII digits, with single underscores allowed between two digits
   * ("1_000"); `None` for anything else, the empty string included.
   */
  function ParseDigits(s: string): (r: Option<nat>)
    ensures r.Some? ==> |s| > 0 && IsDigit(s[0]) && IsDigit(s[|s| - 1])
    ensures r.Some? ==> forall i :: 0 <= i < |s| ==> IsDigit(s[i]) || s[i] == '_'
    decreases |s|
  {
    if s == [] || !IsDigit(s[|s| - 1]) then None
    else
      var digit := s[|s| - 1] as int - '0' as int;
      var init := s[..|s| - 1];
      if init == [] then Some(digit)
      else
        var rest := if init[|init| - 1] == '_' then ParseDigits(init[..|init| - 1]) else ParseDigits(init);
        match rest
        case None => None
        case Some(v) => Some(v * 10 + digit)
  }

  /**
   * `int(s)` for a Python `str` in base 10: an optional sign followed by a digit
   * part; `None` where Python raises `ValueError` (the empty string, "abc", "1__0").
   */
  function ParseInt(s: string): (r: Option<int>)
    ensures r.Some? ==> |s| > 0
    ensures r.Some? ==> forall i :: 0 < i < |s| ==> IsDigit(s[i]) || s[i] == '_'
    ensures r.Some? && !IsDigit(s[0]) ==> s[0] == '-' || s[0] == '+'
    ensures r.Some? && r.value < 0 ==> s[0] == '-'
  {
    if |s| > 0 && (s[0] == '-' || s[0] == '+') then
      match ParseDigits(s[1..])
      case None => None
      case Some(v) => Some(if s[0] == '-' then -(v as int) else v as int)
    else
      match ParseDigits(s)
      case None => None
      case Some(v) => Some(v)
  }

  /** A string that `str()` of some integer produces: what `str(msg.id)` writes. */
  predicate Canonical(s: string) {
    ParseInt(s).Some? && IntToString(ParseInt(s).value) == s
  }

  lemma {:induction false} NatToStringDigits(n: nat)
    ensures |NatToString(n)| > 0
    ensures forall i :: 0 <= i < |NatToString(n)| ==> IsDigit(NatToString(n)[i])
    ensures ParseDigits(NatToString(n)) == Some(n)
    decreases n
  {
    var s := NatToString(n);
    if n >= 10 {
      NatToStringDigits(n / 10);
      assert s[..|s| - 1] == NatToString(n / 10);
    }
  }

  /** `int(str(n)) == n`: parsing recovers every integer that `str` prints. */
  lemma ParseIntToString(n: int)
    ensures ParseInt(IntToString(n)) == Some(n)
  {
    if n < 0 {
      NatToStringDigits(-n);
      assert IntToString(n)[1..] == NatToString(-n);
    } else {
      NatToStringDigits(n);
    }
  }

  /** Every printed integer is canonical, so `str` is injective. */
  lemma IntToStringCanonical(n: int)
    ensures Canonical(IntToString(n))
    ensures forall m :: IntToString(m) == IntToString(n) ==> m == n
  {
    ParseIntToString(n);
    forall m | IntToString(m) == IntToString(n) ensures m == n {
      ParseIntToString(m);
    }
  }
}
