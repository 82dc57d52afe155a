/**
  The string operations of the C library that the driver relies on, stated
  over `string`: `%d` rendering of integers (and reading it back), and
  strtok's splitting of a string into tokens at a delimiter.
 */
module Text {

  datatype Option<T> = None | Some(value: T)

  /** The `%g` and `%.16g` conversions of printf. Their digits are not
      modelled; a driver is given the two renderings it uses. */
  datatype Printf = Printf(g: real -> string, g16: real -> string)

  predicate IsDigit(c: char) {
    '0' <= c <= '9'
  }

  predicate AllDigits(s: string) {
    forall i :: 0 <= i < |s| ==> IsDigit(s[i])
  }

  function DigitChar(d: nat): (c: char)
    requires d < 10
    ensures IsDigit(c)
  {
    (('0' as int) + d) as char
  }

  function DigitValue(c: char): (d: nat)
    requires IsDigit(c)
    ensures d < 10
  {
    (c as int) - ('0' as int)
  }

  /** `%d` (or `%zd`) of a non-negative number: its decimal digits, without
      leading zeros. */
  function NatToDecimal(n: nat): (s: string)
    ensures 0 < |s| && AllDigits(s)
    ensures 1 < |s| ==> s[0] != '0'
    decreases n
  {
    if n < 10 then [DigitChar(n)] else NatToDecimal(n / 10) + [DigitChar(n % 10)]
  }

  /** `%d` of an integer. */
  function IntToDecimal(i: int): (s: string)
    ensures 0 < |s|
    ensures s[0] == '-' <==> i < 0
    ensures forall k :: 0 < k < |s| ==> IsDigit(s[k])
  {
    if i < 0 then "-" + NatToDecimal(-i) else NatToDecimal(i)
  }

  /** The number a string of decimal digits denotes. */
  function DecimalValue(s: string): nat
    requires AllDigits(s)
  {
    if s == [] then 0 else DecimalValue(s[..|s| - 1]) * 10 + DigitValue(s[|s| - 1])
  }

  /** Reading `%d` output back. */
  function ParseInt(s: string): Option<int>
  {
    if s == [] then None
    else if s[0] == '-' then (if 1 < |s| && AllDigits(s[1..]) then Some(0 - DecimalValue(s[1..]) as int) else None)
    else if AllDigits(s) then Some(DecimalValue(s))
    else None
  }

  lemma {:induction false} DecimalRoundTrip(n: nat)
    ensures DecimalValue(NatToDecimal(n)) == n
    decreases n
  {
    if 10 <= n {
      var s := NatToDecimal(n);
      assert s[..|s| - 1] == NatToDecimal(n / 10);
      DecimalRoundTrip(n / 10);
    }
  }

  lemma IntRoundTrip(i: int)
    ensures ParseInt(IntToDecimal(i)) == Some(i)
  {
    if i < 0 {
      var s := IntToDecimal(i);
      assert s[1..] == NatToDecimal(-i);
      DecimalRoundTrip(-i);
    } else {
      DecimalRoundTrip(i);
    }
  }

  /** Two different numbers never print alike. */
  lemma IntToDecimalInjective(i: int, j: int)
    requires IntToDecimal(i) == IntToDecimal(j)
    ensures i == j
  {
    IntRoundTrip(i);
    IntRoundTrip(j);
  }

  // ---------------------------------------------------------------------
  // strtok

  /** Length of the token at the start of s: the longest prefix free of d. */
  function TokenLength(s: string, d: char): (n: nat)
    ensures n <= |s|
    ensures d !in s[..n]
    ensures n < |s| ==> s[n] == d
  {
    if s == [] || s[0] == d then 0 else 1 + TokenLength(s[1..], d)
  }

  /** The tokens successive strtok calls return on s with delimiter d: the
      maximal runs of non-delimiter characters, so repeated, leading and
      trailing delimiters produce no empty token. */
  function Tokens(s: string, d: char): (ts: seq<string>)
    ensures forall k :: 0 <= k < |ts| ==> 0 < |ts[k]| && d !in ts[k]
    decreases |s|
  {
    if s == [] then []
    else if s[0] == d then Tokens(s[1..], d)
    else
      var n := TokenLength(s, d);
      [s[..n]] + Tokens(s[n..], d)
  }

  /** One strtok call: the next token, if any, and where the scan resumes
      (just past the delimiter that ended the token). */
  function NextToken(s: string, d: char): (res: (Option<string>, string))
    ensures res.0.None? ==> Tokens(s, d) == []
    ensures res.0.Some? ==> |res.1| < |s| && Tokens(s, d) == [res.0.value] + Tokens(res.1, d)
    decreases |s|
  {
    if s == [] then (None, [])
    else if s[0] == d then NextToken(s[1..], d)
    else
      var n := TokenLength(s, d);
      if n < |s| then
        assert Tokens(s[n..], d) == Tokens(s[n + 1..], d);
        (Some(s[..n]), s[n + 1..])
      else
        assert s[..n] == s && s[n..] == [];
        (Some(s), [])
  }

  lemma TokensOfPlain(s: string, d: char)
    requires s != [] && d !in s
    ensures Tokens(s, d) == [s]
  {
    assert TokenLength(s, d) == |s|;
    assert s[..|s|] == s && s[|s|..] == [];
  }

  /** A delimiter cuts the token stream in two. */
  lemma {:induction false} TokensSplit(a: string, b: string, d: char)
    ensures Tokens(a + [d] + b, d) == Tokens(a, d) + Tokens(b, d)
    decreases |a|
  {
    var s := a + [d] + b;
    if a == [] {
      assert s[0] == d && s[1..] == b;
    } else if a[0] == d {
      assert s[1..] == a[1..] + [d] + b;
      TokensSplit(a[1..], b, d);
    } else {
      var n := TokenLength(s, d);
      var m := TokenLength(a, d);
      assert s == a + ([d] + b);
      TokenLengthPrefix(a, [d] + b, d);
      assert n == m;
      assert s[..n] == a[..m];
      if m == |a| {
        assert s[n..] == [d] + b;
        assert Tokens(s[n..], d) == Tokens(b, d) by {
          assert ([d] + b)[1..] == b;
        }
        assert a[m..] == [];
      } else {
        assert s[n..] == a[m..] + [d] + b;
        TokensSplit(a[m..], b, d);
      }
    }
  }

  lemma {:induction false} TokenLengthPrefix(a: string, b: string, d: char)
    requires b != [] && b[0] == d
    ensures TokenLength(a + b, d) == TokenLength(a, d)
    decreases |a|
  {
    if a == [] {
      assert a + b == b;
    } else if a[0] != d {
      assert (a + b)[1..] == a[1..] + b;
      TokenLengthPrefix(a[1..], b, d);
    }
  }

  lemma TextAssoc(a: string, b: string, c: string, d: string)
    ensures a + b + c + d == a + (b + c + d)
  {
  }
}
