/**
 * Decimal text: the digit strings that the per-sample metric files carry,
 * optionally grouped by thousands separators ("1,234"), and the subset of
 * Python's `int(str)` that the report converter relies on.
 */
module Decimal {

  datatype Option<T> = None | Some(value: T)

  predicate IsDigit(c: char) { '0' <= c <= '9' }

  predicate AllDigits(s: string) { forall i :: 0 <= i < |s| ==> IsDigit(s[i]) }

  /** ASCII whitespace in the C locale (space, tab through carriage return): what `int()` skips around a number. */
  predicate IsSpace(c: char) { c == ' ' || '\t' <= c <= '\r' }

  function DigitValue(c: char): (d: nat)
    requires IsDigit(c)
    ensures d < 10
  {
    (c as int) - ('0' as int)
  }

  function DigitChar(d: nat): (c: char)
    requires d < 10
    ensures IsDigit(c) && DigitValue(c) == d
  {
    (('0' as int) + d) as char
  }

  /** Reference value of a decimal digit string, most significant digit first. */
  function ParseNat(s: string): nat
    requires AllDigits(s)
  {
    if s == [] then 0 else ParseNat(s[..|s| - 1]) * 10 + DigitValue(s[|s| - 1])
  }

  /** Shortest decimal rendering of n (no leading zeros, "0" for zero). */
  function FormatNat(n: nat): (s: string)
    ensures |s| > 0 && AllDigits(s)
    ensures |s| > 1 ==> s[0] != '0'
  {
    if n < 10 then [DigitChar(n)] else FormatNat(n / 10) + [DigitChar(n % 10)]
  }

  lemma {:induction false} ParseFormatNat(n: nat)
    ensures ParseNat(FormatNat(n)) == n
  {
    if n >= 10 {
      var s := FormatNat(n);
      assert s[..|s| - 1] == FormatNat(n / 10);
      ParseFormatNat(n / 10);
    }
  }

  /** Python's `s.replace(",", "")`: every comma removed, everything else kept in order. */
  function RemoveCommas(s: string): (r: string)
    ensures ',' !in r
    ensures |r| <= |s|
    ensures ',' !in s ==> r == s
    ensures forall c :: c != ',' ==> multiset(r)[c] == multiset(s)[c]
  {
    if s == [] then []
    else
      assert s == [s[0]] + s[1..];
      (if s[0] == ',' then [] else [s[0]]) + RemoveCommas(s[1..])
  }

  lemma {:induction false} RemoveCommasAppend(a: string, b: string)
    ensures RemoveCommas(a + b) == RemoveCommas(a) + RemoveCommas(b)
  {
    if a != [] {
      assert (a + b)[1..] == a[1..] + b;
      RemoveCommasAppend(a[1..], b);
    } else {
      assert a + b == b;
    }
  }

  /** Inserting one comma anywhere does not change what remains once commas are removed. */
  lemma RemoveCommasIgnoresInsertion(a: string, b: string)
    ensures RemoveCommas(a + [','] + b) == RemoveCommas(a + b)
  {
    RemoveCommasAppend(a + [','], b);
    RemoveCommasAppend(a, [',']);
    RemoveCommasAppend(a, b);
  }

  /** Removing commas twice is removing them once. */
  lemma RemoveCommasIdempotent(s: string)
    ensures RemoveCommas(RemoveCommas(s)) == RemoveCommas(s)
  {
  }

  /** Thousands grouping as the upstream metrics writer renders counts ("1234567" -> "1,234,567"). */
  function Group(d: string): (g: string)
    ensures |g| >= |d|
    decreases |d|
  {
    if |d| <= 3 then d else Group(d[..|d| - 3]) + [','] + d[|d| - 3..]
  }

  lemma {:induction false} GroupThenRemoveCommas(d: string)
    requires ',' !in d
    ensures RemoveCommas(Group(d)) == d
    decreases |d|
  {
    if |d| > 3 {
      var head, tail := d[..|d| - 3], d[|d| - 3..];
      assert ',' !in head by { assert forall i :: 0 <= i < |head| ==> head[i] == d[i]; }
      assert ',' !in tail by { assert forall i :: 0 <= i < |tail| ==> tail[i] == d[|d| - 3 + i]; }
      calc {
        RemoveCommas(Group(d));
        RemoveCommas(Group(head) + [','] + tail);
        { RemoveCommasAppend(Group(head) + [','], tail); }
        RemoveCommas(Group(head) + [',']) + RemoveCommas(tail);
        { RemoveCommasAppend(Group(head), [',']); }
        RemoveCommas(Group(head)) + RemoveCommas([',']) + RemoveCommas(tail);
        { GroupThenRemoveCommas(head); }
        head + [] + tail;
        { assert head + tail == d; }
        d;
      }
    }
  }

  function TrimLeft(s: string): (r: string)
    ensures |r| <= |s| && r == s[|s| - |r|..]
    ensures r != [] ==> !IsSpace(r[0])
    ensures forall i :: 0 <= i < |s| - |r| ==> IsSpace(s[i])
  {
    if s != [] && IsSpace(s[0]) then TrimLeft(s[1..]) else s
  }

  function TrimRight(s: string): (r: string)
    ensures |r| <= |s| && r == s[..|r|]
    ensures r != [] ==> !IsSpace(r[|r| - 1])
    ensures forall i :: |r| <= i < |s| ==> IsSpace(s[i])
  {
    if s != [] && IsSpace(s[|s| - 1]) then TrimRight(s[..|s| - 1]) else s
  }

  /**
   * The whitespace `int()` skips: leading and trailing `IsSpace` characters
   * removed, the rest kept as one contiguous piece.
   */
  function Strip(s: string): (r: string)
    ensures |r| <= |s|
    ensures r != [] ==> !IsSpace(r[0]) && !IsSpace(r[|r| - 1])
    ensures var lead := |s| - |TrimLeft(s)|;
      && lead + |r| <= |s|
      && r == s[lead..lead + |r|]
      && (forall i :: 0 <= i < lead ==> IsSpace(s[i]))
      && (forall i :: lead + |r| <= i < |s| ==> IsSpace(s[i]))
  {
    TrimRight(TrimLeft(s))
  }

  /** Stripping removes only whitespace. */
  lemma StripKeeps(s: string, c: char)
    requires c in s && !IsSpace(c)
    ensures c in Strip(s)
  {
    var l := TrimLeft(s);
    var i :| 0 <= i < |s| && s[i] == c;
    assert l[i - (|s| - |l|)] == c;
    var r := TrimRight(l);
    assert r[i - (|s| - |l|)] == c;
  }

  /** An ASCII character that is neither a digit, a sign nor whitespace makes `int()` fail. */
  lemma ParseIntRejects(s: string, c: char)
    requires c in s && (c as int) < 128 && !IsDigit(c) && !IsSpace(c) && c != '+' && c != '-'
    ensures ParseInt(s) == None
  {
    StripKeeps(s, c);
    var t := Strip(s);
    var i :| 0 <= i < |t| && t[i] == c;
    if t[0] == '+' || t[0] == '-' {
      assert t[1..][i - 1] == c;
    }
  }

  /** Text that Python's `int()` accepts: optional surrounding whitespace, an optional sign, one or more digits. */
  predicate IsIntLiteral(s: string)
  {
    var t := Strip(s);
    if t != [] && (t[0] == '+' || t[0] == '-') then |t| > 1 && AllDigits(t[1..])
    else t != [] && AllDigits(t)
  }

  /** Python's `int(s)` on a string: `None` where Python raises ValueError. */
  function ParseInt(s: string): (r: Option<int>)
    ensures r.Some? <==> IsIntLiteral(s)
  {
    var t := Strip(s);
    if t != [] && (t[0] == '+' || t[0] == '-') then
      if |t| > 1 && AllDigits(t[1..]) then
        Some(if t[0] == '-' then 0 - ParseNat(t[1..]) as int else ParseNat(t[1..]))
      else None
    else if t != [] && AllDigits(t) then Some(ParseNat(t))
    else None
  }

  /** Decimal rendering of an integer as Python's `str(int)` gives it. */
  function FormatInt(n: int): (s: string)
    ensures |s| > 0
  {
    if n < 0 then ['-'] + FormatNat(-n) else FormatNat(n)
  }

  lemma DigitsHaveNoComma(s: string)
    requires AllDigits(s)
    ensures ',' !in s
  {
    assert forall i :: 0 <= i < |s| ==> s[i] != ',';
  }

  lemma NoSpaceInDigits(s: string)
    requires AllDigits(s)
    ensures Strip(s) == s
  {
    assert s != [] ==> !IsSpace(s[0]) && !IsSpace(s[|s| - 1]);
  }

  /** A plain digit string parses to its reference value. */
  lemma ParseIntOfDigits(s: string)
    requires s != [] && AllDigits(s)
    ensures ParseInt(s) == Some(ParseNat(s))
  {
    NoSpaceInDigits(s);
  }

  predicate AllSpace(s: string) { forall i :: 0 <= i < |s| ==> IsSpace(s[i]) }

  lemma {:induction false} TrimLeftPadded(w: string, t: string)
    requires AllSpace(w) && t != [] && !IsSpace(t[0])
    ensures TrimLeft(w + t) == t
    decreases |w|
  {
    if w != [] {
      var s := w + t;
      assert s[0] == w[0] && IsSpace(s[0]);
      assert s[1..] == w[1..] + t;
      assert TrimLeft(s) == TrimLeft(s[1..]);
      TrimLeftPadded(w[1..], t);
    } else {
      assert w + t == t;
    }
  }

  lemma {:induction false} TrimRightPadded(t: string, w: string)
    requires AllSpace(w) && t != [] && !IsSpace(t[|t| - 1])
    ensures TrimRight(t + w) == t
    decreases |w|
  {
    if w != [] {
      var s := t + w;
      assert s[|s| - 1] == w[|w| - 1] && IsSpace(s[|s| - 1]);
      assert s[..|s| - 1] == t + w[..|w| - 1];
      assert TrimRight(s) == TrimRight(s[..|s| - 1]);
      TrimRightPadded(t, w[..|w| - 1]);
    } else {
      assert t + w == t;
    }
  }

  /** Surrounding whitespace is what `Strip` removes, and nothing more. */
  lemma StripPadded(w1: string, t: string, w2: string)
    requires AllSpace(w1) && AllSpace(w2)
    requires t != [] && !IsSpace(t[0]) && !IsSpace(t[|t| - 1])
    ensures Strip(w1 + t + w2) == t
  {
    assert w1 + t + w2 == w1 + (t + w2);
    TrimLeftPadded(w1, t + w2);
    TrimRightPadded(t, w2);
  }

  /** The value `int()` gives once the surrounding whitespace is gone. */
  lemma ParseIntOfSigned(s: string, sign: string, d: string)
    requires sign == "" || sign == "+" || sign == "-"
    requires d != [] && AllDigits(d)
    requires Strip(s) == sign + d
    ensures ParseInt(s) == Some(if sign == "-" then 0 - ParseNat(d) as int else ParseNat(d))
  {
    var t := Strip(s);
    if sign == "" {
      assert t == d;
      assert !(t[0] == '+' || t[0] == '-');
    } else {
      assert t[0] == sign[0];
      assert t[1..] == d;
    }
  }

  /**
   * The value of every literal `int()` accepts: whitespace, an optional sign,
   * digits (leading zeros allowed), whitespace.
   */
  lemma ParseIntOfLiteral(w1: string, sign: string, d: string, w2: string)
    requires AllSpace(w1) && AllSpace(w2)
    requires sign == "" || sign == "+" || sign == "-"
    requires d != [] && AllDigits(d)
    ensures ParseInt(w1 + sign + d + w2) == Some(if sign == "-" then 0 - ParseNat(d) as int else ParseNat(d))
  {
    var t := sign + d;
    assert w1 + sign + d + w2 == w1 + t + w2;
    assert t[|t| - 1] == d[|d| - 1];
    assert !IsSpace(t[0]) by {
      if sign == "" { assert t[0] == d[0]; } else { assert t[0] == sign[0]; }
    }
    StripPadded(w1, t, w2);
    ParseIntOfSigned(w1 + t + w2, sign, d);
  }

  /** `int(str(n)) == n` for every integer. */
  lemma ParseFormatInt(n: int)
    ensures ParseInt(FormatInt(n)) == Some(n)
  {
    if n < 0 {
      var s, d := FormatInt(n), FormatNat(-n);
      assert s == [] + "-" + d + [];
      ParseIntOfLiteral([], "-", d, []);
      assert ParseInt(s) == Some(0 - ParseNat(d) as int);
      ParseFormatNat(-n);
      assert 0 - ParseNat(d) as int == n;
      assert ParseInt(s) == Some(n);
    } else {
      ParseFormatNat(n);
      ParseIntOfDigits(FormatNat(n));
      assert FormatInt(n) == FormatNat(n);
      assert ParseInt(FormatInt(n)) == Some(n);
    }
  }
}
