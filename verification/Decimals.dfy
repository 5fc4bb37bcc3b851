/** Decimal text: what std::format prints for an unsigned integer and what std::stoi reads. */
module Decimals {

  const INT_LIMIT: nat := 0x8000_0000

  datatype Stoi = Value(v: int) | InvalidArgument | OutOfRange

  predicate IsDigit(c: char) {
    '0' <= c <= '9'
  }

  predicate AllDigits(s: string) {
    forall i :: 0 <= i < |s| ==> IsDigit(s[i])
  }

  function DigitChar(d: nat): (c: char)
    requires d < 10
    ensures IsDigit(c) && c as int - '0' as int == d
  {
    "0123456789"[d]
  }

  function Dec(n: nat): (s: string)
    ensures s != "" && AllDigits(s)
  {
    if n < 10 then [DigitChar(n)] else Dec(n / 10) + [DigitChar(n % 10)]
  }

  function Number(s: string): nat
    requires AllDigits(s)
  {
    if s == "" then 0
    else Number(s[..|s| - 1]) * 10 + (s[|s| - 1] as int - '0' as int)
  }

  lemma {:induction false} NumberDec(n: nat)
    ensures Number(Dec(n)) == n
  {
    if n >= 10 {
      NumberDec(n / 10);
      assert Dec(n)[..|Dec(n)| - 1] == Dec(n / 10);
    }
  }

  predicate IsSpace(c: char) {
    c == ' ' || '\t' <= c <= '\r'
  }

  function SkipSpace(s: string): string {
    if s != "" && IsSpace(s[0]) then SkipSpace(s[1..]) else s
  }

  /** The number of digits `s` starts with. */
  function Lead(s: string): (k: nat)
    ensures k <= |s| && AllDigits(s[..k])
    ensures k < |s| ==> !IsDigit(s[k])
  {
    if s == "" || !IsDigit(s[0]) then 0
    else
      assert s[..1 + Lead(s[1..])] == [s[0]] + s[1..][..Lead(s[1..])];
      1 + Lead(s[1..])
  }

  /** White space, an optional sign and the digits that follow; the rest is ignored. */
  function ReadInt(s: string): Stoi {
    var t := SkipSpace(s);
    var signed := t != "" && (t[0] == '-' || t[0] == '+');
    var u := if signed then t[1..] else t;
    var k := Lead(u);
    if k == 0 then InvalidArgument
    else
      var n: int := Number(u[..k]);
      var v: int := if signed && t[0] == '-' then 0 - n else n;
      if 0 - INT_LIMIT <= v < INT_LIMIT then Value(v) else OutOfRange
  }

  lemma {:induction false} LeadAll(s: string)
    requires AllDigits(s)
    ensures Lead(s) == |s|
  {
    if s != "" {
      LeadAll(s[1..]);
    }
  }

  /** Printing then reading gives the number back exactly when it fits an int; else it throws. */
  lemma ReadDec(n: nat)
    ensures ReadInt(Dec(n)) == if n < INT_LIMIT then Value(n) else OutOfRange
  {
    var s := Dec(n);
    assert IsDigit(s[0]);
    assert SkipSpace(s) == s;
    LeadAll(s);
    NumberDec(n);
    assert s[..|s|] == s;
  }

  // ---------------------------------------------------------------- what stoi reads

  /** White space up to i, at most one sign up to j, and at least one digit up to k, where they end. */
  ghost predicate IntAt(s: string, i: nat, j: nat, k: nat) {
    && i <= j < k <= |s| && j <= i + 1
    && (forall x :: 0 <= x < i ==> s[x] as int == 32 || 9 <= s[x] as int <= 13)
    && (j == i + 1 ==> s[i] == '-' || s[i] == '+')
    && AllDigits(s[j..k]) && (k < |s| ==> !IsDigit(s[k]))
  }

  function IntOf(s: string, i: nat, j: nat, k: nat): int
    requires i <= j < k <= |s| && AllDigits(s[j..k])
  {
    if s[i] == '-' then 0 - Number(s[j..k]) else Number(s[j..k])
  }

  lemma {:induction false} SpacesSkipped(s: string, i: nat)
    requires i <= |s| && (forall x :: 0 <= x < i ==> IsSpace(s[x])) && (i < |s| ==> !IsSpace(s[i]))
    ensures SkipSpace(s) == s[i..]
  {
    if i > 0 {
      SpacesSkipped(s[1..], i - 1);
    }
  }

  lemma {:induction false} LeadIs(s: string, k: nat)
    requires k <= |s| && AllDigits(s[..k]) && (k < |s| ==> !IsDigit(s[k]))
    ensures Lead(s) == k
  {
    if k > 0 {
      assert s[1..][..k - 1] == s[..k][1..];
      LeadIs(s[1..], k - 1);
    }
  }

  lemma {:induction false} SpacesBefore(s: string) returns (i: nat)
    ensures i <= |s| && (forall x :: 0 <= x < i ==> IsSpace(s[x])) && (i < |s| ==> !IsSpace(s[i]))
  {
    if s == "" || !IsSpace(s[0]) {
      i := 0;
    } else {
      i := SpacesBefore(s[1..]);
      i := i + 1;
    }
  }

  /** stoi reads the number that stands there, when it fits an int. */
  lemma ReadIntAt(s: string, i: nat, j: nat, k: nat)
    requires IntAt(s, i, j, k)
    ensures ReadInt(s) ==
            if 0 - INT_LIMIT <= IntOf(s, i, j, k) < INT_LIMIT then Value(IntOf(s, i, j, k)) else OutOfRange
  {
    assert s[j..k][0] == s[j] && IsDigit(s[j]);
    SpacesSkipped(s, i);
    assert s[i..][j - i..] == s[j..] && s[j..][..k - j] == s[j..k];
    LeadIs(s[j..], k - j);
  }

  /** Without a number stoi throws. */
  lemma ReadIntNone(s: string)
    requires forall i: nat, j: nat, k: nat :: !IntAt(s, i, j, k)
    ensures ReadInt(s) == InvalidArgument
  {
    var i := SpacesBefore(s);
    SpacesSkipped(s, i);
    var t := s[i..];
    var j := if t != "" && (t[0] == '-' || t[0] == '+') then i + 1 else i;
    var u := s[j..];
    assert u == if j > i then t[1..] else t;
    var k := Lead(u);
    if k > 0 {
      assert s[j..j + k] == u[..k];
      assert IntAt(s, i, j, j + k);
    }
  }
}
