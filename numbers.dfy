/**
 * The numeric primitives of JavaScript that the restock screen relies on:
 * `Math.ceil` on exact reals, `parseInt` with no radix argument, and the decimal
 * rendering of an integer by `toString`.
 */
module Numbers {
  import opened Wrappers
  import opened Text

  /** `Math.ceil`: the least integer that is not below `x`. */
  function Ceil(x: real): (r: int)
    ensures x <= r as real < x + 1.0
  {
    -((-x).Floor)
  }

  lemma CeilMonotone(x: real, y: real)
    requires x <= y
    ensures Ceil(x) <= Ceil(y)
  {
  }

  /** Value of `c` as a digit in bases up to 36; 36 when `c` is no digit at all. */
  function DigitValue(c: char): (v: nat)
    ensures v <= 36
    ensures v < 10 <==> '0' <= c <= '9'
  {
    if '0' <= c <= '9' then c as int - '0' as int
    else if 'a' <= c <= 'z' then c as int - 'a' as int + 10
    else if 'A' <= c <= 'Z' then c as int - 'A' as int + 10
    else 36
  }

  /** Length of the longest prefix of `s` made of digits of base `radix`. */
  function DigitRun(s: string, radix: nat): (n: nat)
    ensures n <= |s|
  {
    if |s| > 0 && DigitValue(s[0]) < radix then 1 + DigitRun(s[1..], radix) else 0
  }

  /** The run is made of digits and cannot be extended. */
  lemma {:induction false} DigitRunIsMaximal(s: string, radix: nat)
    ensures var n := DigitRun(s, radix);
      && (forall i :: 0 <= i < n ==> DigitValue(s[i]) < radix)
      && (n == |s| || DigitValue(s[n]) >= radix)
  {
    if |s| > 0 && DigitValue(s[0]) < radix {
      DigitRunIsMaximal(s[1..], radix);
      var n := DigitRun(s, radix);
      assert forall i :: 1 <= i < n ==> s[i] == s[1..][i - 1];
    }
  }

  /** The number that the digits `ds` denote in base 10 or 16, most significant first. */
  function ValueOf(ds: string, radix: nat): nat
    requires radix == 10 || radix == 16
  {
    if ds == [] then 0
    else if radix == 16 then ValueOf(ds[..|ds| - 1], radix) * 16 + DigitValue(ds[|ds| - 1])
    else ValueOf(ds[..|ds| - 1], radix) * 10 + DigitValue(ds[|ds| - 1])
  }

  /**
   * `parseInt(s)`: skip leading white space, then read an optional sign and the
   * magnitude. `None` is `NaN`.
   */
  function ParseInt(s: string): Option<int>
  {
    if |s| > 0 && IsWhitespace(s[0]) then ParseInt(s[1..]) else ParseSigned(s)
  }

  /** `parseInt` once the white space is gone: a `-` negates, a `+` is dropped. */
  function ParseSigned(t: string): Option<int>
  {
    var negative := |t| > 0 && t[0] == '-';
    var u := if |t| > 0 && (t[0] == '-' || t[0] == '+') then t[1..] else t;
    match ParseMagnitude(u)
    case None => None
    case Some(m) => var k: int := m; Some(if negative then -k else k)
  }

  /**
   * The unsigned part of `parseInt`: base 16 after a `0x` or `0X` prefix, base 10
   * otherwise, then the longest run of digits; `None` when that run is empty.
   * Anything after the run is ignored.
   */
  function ParseMagnitude(u: string): Option<nat>
  {
    var hex := |u| >= 2 && u[0] == '0' && (u[1] == 'x' || u[1] == 'X');
    var radix := if hex then 16 else 10;
    var v := if hex then u[2..] else u;
    var n := DigitRun(v, radix);
    if n == 0 then None else Some(ValueOf(v[..n], radix))
  }

  /** Leading white space does not change what `parseInt` reads. */
  lemma {:induction false} ParseIntSkipsWhitespace(w: string, s: string)
    requires forall i :: 0 <= i < |w| ==> IsWhitespace(w[i])
    ensures ParseInt(w + s) == ParseInt(s)
  {
    if w == [] {
      assert w + s == s;
    } else {
      assert (w + s)[0] == w[0] && (w + s)[1..] == w[1..] + s;
      ParseIntSkipsWhitespace(w[1..], s);
    }
  }

  function DigitChar(d: nat): (c: char)
    requires d < 10
    ensures DigitValue(c) == d
  {
    ('0' as int + d) as char
  }

  /** Decimal digits of `n`, without leading zeros. */
  function NatToString(n: nat): (s: string)
    ensures |s| >= 1
    ensures forall i :: 0 <= i < |s| ==> '0' <= s[i] <= '9'
    ensures s[0] == '0' ==> n == 0 && s == "0"
  {
    if n < 10 then [DigitChar(n)] else NatToString(n / 10) + [DigitChar(n % 10)]
  }

  /** `n.toString()` for an integer `n`. */
  function IntToString(n: int): (s: string)
    ensures |s| >= 1
    ensures s[0] == '-' <==> n < 0
  {
    if n < 0 then "-" + NatToString(-n) else NatToString(n)
  }

  /**
   * The canonical form `toString` writes: after the sign only decimal digits, and no
   * leading zero unless the whole text is "0".
   */
  lemma IntToStringForm(n: int)
    ensures var s := IntToString(n); var k := if n < 0 then 1 else 0;
      && k < |s|
      && (forall i :: k <= i < |s| ==> '0' <= s[i] <= '9')
      && (s[k] == '0' ==> s == "0")
  {
  }

  lemma {:induction false} ValueOfNatToString(n: nat)
    ensures ValueOf(NatToString(n), 10) == n
  {
    var s := NatToString(n);
    if n < 10 {
      assert s[..0] == [];
    } else {
      ValueOfNatToString(n / 10);
      assert s[..|s| - 1] == NatToString(n / 10);
    }
  }

  lemma {:induction false} DigitRunOfDigits(p: string, tail: string, radix: nat)
    requires forall i :: 0 <= i < |p| ==> DigitValue(p[i]) < radix
    requires tail == [] || DigitValue(tail[0]) >= radix
    ensures DigitRun(p + tail, radix) == |p|
  {
    if p != [] {
      assert (p + tail)[1..] == p[1..] + tail;
      DigitRunOfDigits(p[1..], tail, radix);
    }
  }

  lemma MagnitudeOfNatToString(m: nat, tail: string)
    requires tail == [] || (DigitValue(tail[0]) >= 10 && tail[0] != 'x' && tail[0] != 'X')
    ensures ParseMagnitude(NatToString(m) + tail) == Some(m)
  {
    var digits := NatToString(m);
    var u := digits + tail;
    assert !(|u| >= 2 && u[0] == '0' && (u[1] == 'x' || u[1] == 'X')) by {
      if |u| >= 2 && u[0] == '0' {
        assert m == 0 && |digits| == 1;
        assert u[1] == tail[0];
      }
    }
    DigitRunOfDigits(digits, tail, 10);
    assert u[..|digits|] == digits;
    ValueOfNatToString(m);
  }

  lemma ConcatAssociative(a: string, b: string, c: string)
    ensures (a + b) + c == a + (b + c)
  {
  }

  /** Text that starts with a digit, or with `-` and a digit, is read by `ParseMagnitude` alone. */
  lemma ParseIntOfDigitStart(u: string, m: nat)
    requires |u| > 0 && '0' <= u[0] <= '9'
    requires ParseMagnitude(u) == Some(m)
    ensures ParseInt(u) == Some(m)
    ensures ParseInt(['-'] + u) == Some(-(m as int))
  {
    assert !IsWhitespace(u[0]);
    assert ParseInt(u) == ParseSigned(u);
    var s := ['-'] + u;
    assert s[0] == '-' && s[1..] == u;
    assert !IsWhitespace(s[0]);
    assert ParseInt(s) == ParseSigned(s);
  }

  /**
   * `parseInt` reads back what `toString` wrote, also when the text goes on with
   * something that is neither a digit nor an `x` or `X`.
   */
  lemma ParseIntOfIntToString(n: int, tail: string)
    requires tail == [] || (DigitValue(tail[0]) >= 10 && tail[0] != 'x' && tail[0] != 'X')
    ensures ParseInt(IntToString(n) + tail) == Some(n)
  {
    var m: nat := if n < 0 then -n else n;
    var u := NatToString(m) + tail;
    MagnitudeOfNatToString(m, tail);
    ParseIntOfDigitStart(u, m);
    if n < 0 {
      assert IntToString(n) == ['-'] + NatToString(m);
      ConcatAssociative(['-'], NatToString(m), tail);
    } else {
      assert IntToString(n) == NatToString(m);
    }
  }

  lemma ParseIntRoundTrip(n: int)
    ensures ParseInt(IntToString(n)) == Some(n)
  {
    assert IntToString(n) + [] == IntToString(n);
    ParseIntOfIntToString(n, []);
  }

  /** `parseInt("0")` is 0 and `parseInt("")` is `NaN`. */
  lemma ParseIntZeroAndEmpty()
    ensures ParseInt("0") == Some(0)
    ensures ParseInt("") == None
  {
    ParseIntRoundTrip(0);
  }
}
