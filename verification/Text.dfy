/** Splitting, decimal printing and decimal scanning, as the Go standard library does them. */
module Text {
  import opened Prelude

  function IndexOf<T(==)>(s: seq<T>, x: T): (i: nat)
    requires x in s
    ensures i < |s| && s[i] == x && x !in s[..i]
  {
    if s[0] == x then 0 else 1 + IndexOf(s[1..], x)
  }

  /** strings.SplitN: at most n parts; all of them when n is negative. */
  function SplitN<T(==)>(s: seq<T>, sep: T, n: int): seq<seq<T>>
    decreases |s|
  {
    if n == 0 then []
    else if n == 1 || sep !in s then [s]
    else
      var i := IndexOf(s, sep);
      [s[..i]] + SplitN(s[i + 1..], sep, n - 1)
  }

  lemma SplitHead<T>(head: seq<T>, sep: T, rest: seq<T>, n: int)
    requires sep !in head
    requires n < 0 || n > 1
    ensures SplitN(head + [sep] + rest, sep, n) == [head] + SplitN(rest, sep, n - 1)
  {
    var s := head + [sep] + rest;
    assert s[|head|] == sep;
    var i := IndexOf(s, sep);
    assert forall j :: 0 <= j < |head| ==> s[j] in head;
    assert forall j :: 0 <= j < i ==> s[j] in s[..i];
    assert s[..i] == head && s[i + 1..] == rest;
  }

  predicate IsDigit(c: char) { '0' <= c <= '9' }

  function DigitOf(c: char): nat
    requires IsDigit(c)
  {
    c as int - '0' as int
  }

  function DigitChar(d: nat): char
    requires d < 10
  {
    ('0' as int + d) as char
  }

  /** The %d verb on an unsigned value. */
  function Decimal(n: nat): string {
    if n < 10 then [DigitChar(n)] else Decimal(n / 10) + [DigitChar(n % 10)]
  }

  /** Length of the longest prefix of decimal digits. */
  function DigitCount(s: string): (k: nat)
    ensures k <= |s|
  {
    if s == "" || !IsDigit(s[0]) then 0 else 1 + DigitCount(s[1..])
  }

  function DigitsValue(s: string): nat
    requires forall i :: 0 <= i < |s| ==> IsDigit(s[i])
  {
    if s == "" then 0 else DigitsValue(s[..|s| - 1]) * 10 + DigitOf(s[|s| - 1])
  }

  lemma {:induction false} DigitCountIsPrefix(s: string)
    ensures forall i :: 0 <= i < DigitCount(s) ==> IsDigit(s[i])
    ensures DigitCount(s) < |s| ==> !IsDigit(s[DigitCount(s)])
  {
    if s != "" && IsDigit(s[0]) {
      DigitCountIsPrefix(s[1..]);
      forall i | 0 <= i < DigitCount(s) ensures IsDigit(s[i]) {
        if i > 0 { assert s[i] == s[1..][i - 1]; }
      }
    }
  }

  lemma {:induction false} DecimalDigits(n: nat)
    ensures Decimal(n) != ""
    ensures forall i :: 0 <= i < |Decimal(n)| ==> IsDigit(Decimal(n)[i])
    ensures DigitsValue(Decimal(n)) == n
  {
    if n >= 10 {
      DecimalDigits(n / 10);
      assert Decimal(n)[..|Decimal(n)| - 1] == Decimal(n / 10);
    }
  }

  lemma {:induction false} DigitCountStops(digits: string, rest: string)
    requires forall i :: 0 <= i < |digits| ==> IsDigit(digits[i])
    requires rest == "" || !IsDigit(rest[0])
    ensures DigitCount(digits + rest) == |digits|
  {
    if digits == "" {
      assert digits + rest == rest;
    } else {
      assert (digits + rest)[1..] == digits[1..] + rest;
      assert (digits + rest)[0] == digits[0];
      DigitCountStops(digits[1..], rest);
    }
  }

  /** unicode.IsSpace as the fmt scanner uses it. */
  predicate IsSpace(c: char) {
    var u := c as int;
    0x09 <= u <= 0x0d || u == 0x20 || u == 0x85 || u == 0xa0 || u == 0x1680 ||
    0x2000 <= u <= 0x200a || u == 0x2028 || u == 0x2029 || u == 0x202f || u == 0x205f || u == 0x3000
  }

  /** Skips blanks before an operand; a line feed there is an error for Sscanf. */
  function SkipSpace(s: string): Option<string> {
    if s == "" then Some("")
    else if s[0] == '\n' then None
    else if IsSpace(s[0]) then SkipSpace(s[1..])
    else Some(s)
  }

  datatype Scanned = Stopped | Scanned(value: nat, rest: string)

  /** Operand of %d into an unsigned integer below limit: at least one digit, no sign. */
  function ScanUint(s: string, limit: nat): Scanned {
    var t := SkipSpace(s);
    if t.None? then Stopped
    else
      var k := DigitCount(t.value);
      DigitCountIsPrefix(t.value);
      if k == 0 then Stopped
      else
        var v := DigitsValue(t.value[..k]);
        if v >= limit then Stopped else Scanned(v, t.value[k..])
  }

  /** Literal text of the format must match the input exactly. */
  function ScanLiteral(s: string, literal: string): Option<string> {
    if literal <= s then Some(s[|literal|..]) else None
  }

  lemma ScanDecimal(n: nat, rest: string, limit: nat)
    requires n < limit
    requires rest == "" || !IsDigit(rest[0])
    ensures ScanUint(Decimal(n) + rest, limit) == Scanned(n, rest)
  {
    DecimalDigits(n);
    var d := Decimal(n);
    var s := d + rest;
    assert s[0] == d[0] && IsDigit(s[0]);
    DigitCountStops(d, rest);
    assert s[..|d|] == d && s[|d|..] == rest;
  }

  /** Literal text followed by an unsigned operand below limit. */
  function ScanField(s: string, literal: string, limit: nat): Scanned {
    var t := ScanLiteral(s, literal);
    if t.None? then Stopped else ScanUint(t.value, limit)
  }

  lemma ScanFieldText(literal: string, n: nat, rest: string, limit: nat)
    requires rest == "" || !IsDigit(rest[0])
    ensures ScanField(literal + (Decimal(n) + rest), literal, limit) ==
      if n < limit then Scanned(n, rest) else Stopped
  {
    var s := literal + (Decimal(n) + rest);
    assert s[..|literal|] == literal && s[|literal|..] == Decimal(n) + rest;
    ScanDecimal(n, rest, n + 1);
    if n < limit {
      ScanDecimal(n, rest, limit);
    }
  }

  /** Parts written one after the other with a separator between them. */
  function Join<T>(parts: seq<seq<T>>, sep: T): seq<T>
    requires |parts| > 0
  {
    if |parts| == 1 then parts[0] else parts[0] + [sep] + Join(parts[1..], sep)
  }

  lemma {:induction false} SplitJoin<T>(parts: seq<seq<T>>, sep: T, n: int)
    requires |parts| > 0
    requires n < 0 || n >= |parts|
    requires forall i :: 0 <= i < |parts| ==> sep !in parts[i]
    ensures SplitN(Join(parts, sep), sep, n) == parts
    decreases |parts|
  {
    if |parts| > 1 {
      var head, tail := parts[0], parts[1..];
      SplitJoin(tail, sep, n - 1);
      SplitHead(head, sep, Join(tail, sep), n);
      assert [head] + tail == parts;
    }
  }
}
