/**
 * The text of the composite error `retry` returns once its budget is spent,
 * `fmt.Errorf("after %d retries, last error: %s", retries, err)`, together with
 * a parser that recovers the retry count and the last error from that text.
 */
module Format {
  import opened GoErrors

  datatype Option<T> = None | Some(value: T)

  predicate IsDigit(c: char) {
    '0' <= c <= '9'
  }

  predicate IsNumeral(s: string) {
    |s| > 0 && forall i :: 0 <= i < |s| ==> IsDigit(s[i])
  }

  function DigitChar(d: nat): (c: char)
    requires d < 10
    ensures IsDigit(c) && c as int - '0' as int == d
  {
    ('0' as int + d) as char
  }

  function DigitValue(c: char): (d: nat)
    requires IsDigit(c)
    ensures d < 10 && DigitChar(d) == c
  {
    c as int - '0' as int
  }

  /** The decimal digits of `n`, most significant first, with no leading zero. */
  function FormatNat(n: nat): (s: string)
    ensures IsNumeral(s)
    ensures s[0] == '0' <==> n == 0
  {
    if n < 10 then [DigitChar(n)] else FormatNat(n / 10) + [DigitChar(n % 10)]
  }

  /** Go's `%d` verb on an `int`: a minus sign before the digits of a negative value. */
  function FormatInt(n: int): (s: string)
    ensures |s| > 0 && (s[0] == '-' <==> n < 0)
    ensures forall i :: 0 <= i < |s| ==> s[i] != ' '
  {
    if n < 0 then "-" + FormatNat(-n) else FormatNat(n)
  }

  /** The value of a string of decimal digits. */
  function ParseNat(s: string): nat
    requires forall i :: 0 <= i < |s| ==> IsDigit(s[i])
  {
    if s == [] then 0 else 10 * ParseNat(s[..|s| - 1]) + DigitValue(s[|s| - 1])
  }

  /** The value of an optionally signed numeral, or None when `s` is not one. */
  function ParseInt(s: string): Option<int> {
    if |s| > 0 && s[0] == '-' && IsNumeral(s[1..]) then Some(0 - ParseNat(s[1..]) as int)
    else if IsNumeral(s) then Some(ParseNat(s))
    else None
  }

  lemma {:induction false} ParseFormatNat(n: nat)
    ensures ParseNat(FormatNat(n)) == n
  {
    if n >= 10 {
      var s := FormatNat(n);
      assert s[..|s| - 1] == FormatNat(n / 10);
      ParseFormatNat(n / 10);
    }
  }

  lemma ParseFormatInt(n: int)
    ensures ParseInt(FormatInt(n)) == Some(n)
  {
    if n < 0 {
      assert FormatInt(n)[1..] == FormatNat(-n);
      ParseFormatNat(-n);
    } else {
      ParseFormatNat(n);
    }
  }

  const RetryPrefix := "after "
  const RetryInfix := " retries, last error: "

  /** The message of the error `retry` returns after `retries` retries whose last error said `last`. */
  function RetryMessage(retries: int, last: string): (m: string)
    ensures |m| > |RetryPrefix| + |RetryInfix| + |last|
    ensures m[..|RetryPrefix|] == RetryPrefix && m[|m| - |last|..] == last
  {
    RetryPrefix + FormatInt(retries) + RetryInfix + last
  }

  /** The index of the first space in `s`, or `|s|` when there is none. */
  function SpaceIndex(s: string): (j: nat)
    ensures j <= |s|
    ensures forall i :: 0 <= i < j ==> s[i] != ' '
    ensures j < |s| ==> s[j] == ' '
  {
    if s == [] || s[0] == ' ' then 0 else 1 + SpaceIndex(s[1..])
  }

  /** Reads back the retry count and the last error's text from a RetryMessage. */
  function ParseRetryMessage(m: string): Option<(int, string)> {
    if |m| < |RetryPrefix| || m[..|RetryPrefix|] != RetryPrefix then None
    else
      var rest := m[|RetryPrefix|..];
      var j := SpaceIndex(rest);
      var count := ParseInt(rest[..j]);
      var tail := rest[j..];
      if count.None? || |tail| < |RetryInfix| || tail[..|RetryInfix|] != RetryInfix then None
      else Some((count.value, tail[|RetryInfix|..]))
  }

  lemma {:induction false} SpaceIndexAfter(a: string, b: string)
    requires forall i :: 0 <= i < |a| ==> a[i] != ' '
    requires |b| > 0 && b[0] == ' '
    ensures SpaceIndex(a + b) == |a|
  {
    if a != [] {
      assert (a + b)[1..] == a[1..] + b;
      SpaceIndexAfter(a[1..], b);
    }
  }

  /** The composite error identifies both the retry count and the last underlying error. */
  lemma RetryMessageRoundTrip(retries: int, last: string)
    ensures ParseRetryMessage(RetryMessage(retries, last)) == Some((retries, last))
  {
    var m := RetryMessage(retries, last);
    var digits := FormatInt(retries);
    var rest := m[|RetryPrefix|..];
    assert m[..|RetryPrefix|] == RetryPrefix;
    assert rest == digits + (RetryInfix + last);
    SpaceIndexAfter(digits, RetryInfix + last);
    assert rest[..|digits|] == digits;
    assert rest[|digits|..] == RetryInfix + last;
    ParseFormatInt(retries);
    assert (RetryInfix + last)[..|RetryInfix|] == RetryInfix;
    assert (RetryInfix + last)[|RetryInfix|..] == last;
  }
}
