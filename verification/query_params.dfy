/** Reading `page` and `limit` from the query string: JavaScript's
    `parseInt`, the `|| default` fallback, and the page arithmetic. */
module QueryParams {
  import opened Wrappers
  import Text

  predicate IsDigit(c: char, base: nat)
  {
    if base == 16 then '0' <= c <= '9' || 'a' <= c <= 'f' || 'A' <= c <= 'F'
    else '0' <= c <= '9'
  }

  function DigitValue(c: char): (r: nat)
  {
    if '0' <= c <= '9' then c as int - '0' as int
    else if 'a' <= c <= 'f' then c as int - 'a' as int + 10
    else if 'A' <= c <= 'F' then c as int - 'A' as int + 10
    else 0
  }

  /** The longest prefix of digits in `base`. */
  function DigitPrefix(s: string, base: nat): (r: string)
    ensures |r| <= |s| && r == s[..|r|]
    ensures forall i :: 0 <= i < |r| ==> IsDigit(r[i], base)
    ensures |r| < |s| ==> !IsDigit(s[|r|], base)
  {
    if s != [] && IsDigit(s[0], base) then [s[0]] + DigitPrefix(s[1..], base) else []
  }

  /** The number a string of digits denotes, most significant first. */
  function DigitsValue(ds: string, base: nat): nat
  {
    if ds == [] then 0 else DigitsValue(ds[..|ds| - 1], base) * base + DigitValue(ds[|ds| - 1])
  }

  /** The unsigned part of `parseInt`: a `0x`/`0X` prefix selects base 16;
      the value is that of the longest run of digits, None when there is none. */
  function ParseUnsigned(u: string): Option<nat>
  {
    var hex := |u| >= 2 && u[0] == '0' && (u[1] == 'x' || u[1] == 'X');
    var base := if hex then 16 else 10;
    var ds := DigitPrefix(if hex then u[2..] else u, base);
    if ds == [] then None else Some(DigitsValue(ds, base))
  }

  /** `parseInt(s)` with no radix: leading white space is skipped, then an
      optional sign; None stands for NaN. */
  function ParseInt(s: string): Option<int>
  {
    var t := Text.TrimStart(s);
    if t != [] && t[0] == '-' then
      match ParseUnsigned(t[1..])
      case None => None
      case Some(v) => Some(-(v as int))
    else if t != [] && t[0] == '+' then
      match ParseUnsigned(t[1..])
      case None => None
      case Some(v) => Some(v as int)
    else
      match ParseUnsigned(t)
      case None => None
      case Some(v) => Some(v as int)
  }

  /** `parseInt(param) || fallback`, where a missing parameter takes the
      destructured default, which is `fallback` itself: NaN and 0 are falsy. */
  function IntParam(param: Option<string>, fallback: int): (r: int)
    requires fallback != 0
    ensures r != 0
    ensures param.None? ==> r == fallback
    ensures param.Some? && ParseInt(param.value).Some? && ParseInt(param.value).value != 0 ==>
      r == ParseInt(param.value).value
    ensures param.Some? && (ParseInt(param.value).None? || ParseInt(param.value) == Some(0)) ==>
      r == fallback
  {
    if param.None? then fallback
    else match ParseInt(param.value)
      case None => fallback
      case Some(n) => if n == 0 then fallback else n
  }

  function Abs(x: int): nat { if x < 0 then -x else x }

  const DefaultPage: int := 1
  const DefaultLimit: int := 20

  /** `Math.ceil(total / limit)`, exactly. */
  function CeilDiv(total: nat, limit: int): (r: int)
    requires limit != 0
    ensures limit > 0 ==> (r - 1) * limit < total <= r * limit
    ensures limit < 0 ==> r * limit <= total < (r - 1) * limit
  {
    if limit > 0 then -((-(total as int)) / limit) else -(total / (-limit))
  }

  // ---------------------------------------------------------------------
  // The decimal form a client writes, and the round trip through parseInt
  // ---------------------------------------------------------------------

  function DigitChar(d: nat): char
    requires d < 10
  {
    ('0' as int + d) as char
  }

  function NatToDecimal(n: nat): (r: string)
    ensures |r| >= 1
    ensures forall i :: 0 <= i < |r| ==> '0' <= r[i] <= '9'

  {
    if n < 10 then [DigitChar(n)] else NatToDecimal(n / 10) + [DigitChar(n % 10)]
  }

  /** `String(n)` for an integer. */
  function IntToDecimal(n: int): string
  {
    if n < 0 then "-" + NatToDecimal(-n) else NatToDecimal(n)
  }

  lemma {:induction false} DecimalDigitsValue(n: nat)
    ensures DigitsValue(NatToDecimal(n), 10) == n
  {
    if n >= 10 {
      var s := NatToDecimal(n);
      DecimalDigitsValue(n / 10);
      assert s[..|s| - 1] == NatToDecimal(n / 10);
    }
  }

  lemma {:induction false} AllDigitsPrefix(s: string, base: nat)
    requires forall i :: 0 <= i < |s| ==> IsDigit(s[i], base)
    ensures DigitPrefix(s, base) == s
  {
    if s != [] {
      AllDigitsPrefix(s[1..], base);
    }
  }

  lemma UnsignedDecimal(m: nat)
    ensures ParseUnsigned(NatToDecimal(m)) == Some(m)
  {
    var ds := NatToDecimal(m);
    assert |ds| >= 2 ==> ds[1] != 'x' && ds[1] != 'X';
    assert forall i :: 0 <= i < |ds| ==> IsDigit(ds[i], 10);
    AllDigitsPrefix(ds, 10);
    DecimalDigitsValue(m);
  }

  /** `parseInt(String(n)) == n` for every integer. */
  lemma ParseIntDecimal(n: int)
    ensures ParseInt(IntToDecimal(n)) == Some(n)
  {
    var m: nat := if n < 0 then -n else n;
    var ds := NatToDecimal(m);
    var s := IntToDecimal(n);
    assert !Text.IsSpace(s[0]);
    assert Text.TrimStart(s) == s;
    UnsignedDecimal(m);
    if n < 0 {
      assert s[1..] == ds;
    }
  }

  /** A page or limit written as a non-zero decimal number is read back as
      that number; "0" falls back to the default. */
  lemma IntParamDecimal(n: int, fallback: int)
    requires fallback != 0
    ensures IntParam(Some(IntToDecimal(n)), fallback) == if n == 0 then fallback else n
  {
    ParseIntDecimal(n);
  }
}
