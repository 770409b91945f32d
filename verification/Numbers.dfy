/** lib/stdlib.c: atoi. */
module Numbers {
  import opened Common
  import opened CStrings

  const MINUS: Byte := 0x2D
  const PLUS: Byte := 0x2B
  const INT_MAX: int := 0x7FFF_FFFF

  /** isspace (lib/ctype.c): blank, line feed, carriage return, form feed, tab and vertical tab. */
  predicate IsSpace(c: Byte) {
    c == 0x20 || c == 0x0A || c == 0x0D || c == 0x0C || c == 0x09 || c == 0x0B
  }

  predicate IsDigit(c: Byte) {
    0x30 <= c <= 0x39
  }

  predicate IsSign(c: Byte) {
    c == MINUS || c == PLUS
  }

  // ------------------------------------------------------------ what a string denotes

  /** The first position from i on that is no space. */
  function Start(s: CStr, i: nat): (k: nat)
    requires i <= |s|
    ensures i <= k <= |s|
    decreases |s| - i
  {
    if i < |s| && IsSpace(s[i]) then Start(s, i + 1) else i
  }

  /** The value of the digits from i on, behind digits of value v. */
  function Value(s: CStr, i: nat, v: nat): nat
    requires i <= |s|
    decreases |s| - i
  {
    if i < |s| && IsDigit(s[i]) then Value(s, i + 1, 10 * v + (s[i] - 0x30)) else v
  }

  function Magnitude(s: CStr): nat {
    var k := Start(s, 0);
    if k < |s| && IsSign(s[k]) then Value(s, k + 1, 0) else Value(s, k, 0)
  }

  function Denotes(s: CStr): int {
    var k := Start(s, 0);
    if k < |s| && s[k] == MINUS then 0 - Magnitude(s) else Magnitude(s)
  }

  // ------------------------------------------------------------ decimal numerals

  /** The decimal numeral of n. */
  function Decimal(n: nat): (s: CStr)
    ensures s != [] && forall i :: 0 <= i < |s| ==> IsDigit(s[i])
  {
    if n < 10 then [0x30 + n] else Decimal(n / 10) + [0x30 + n % 10]
  }

  function Power10(k: nat): nat {
    if k == 0 then 1 else 10 * Power10(k - 1)
  }

  lemma OneMoreDigit(v: nat, p: nat, q: nat, d: nat)
    ensures 10 * (v * p + q) + d == v * (10 * p) + (10 * q + d)
  {
  }

  lemma OneDigit(s: CStr, k: nat, w: nat, d: nat)
    requires k < |s| && d < 10 && s[k] == 0x30 + d
    ensures Value(s, k, w) == Value(s, k + 1, 10 * w + d)
  {
  }

  lemma DecimalEnds(n: nat)
    requires n >= 10
    ensures Decimal(n) == Decimal(n / 10) + [0x30 + n % 10]
  {
  }

  /** A numeral at position i of s, with no digit behind it, is read for what it stands for. */
  lemma {:induction false} ValueOfDecimal(s: CStr, i: nat, n: nat, v: nat)
    requires i + |Decimal(n)| <= |s| && forall j :: 0 <= j < |Decimal(n)| ==> s[i + j] == Decimal(n)[j]
    ensures Value(s, i, v) == Value(s, i + |Decimal(n)|, v * Power10(|Decimal(n)|) + n)
    decreases n, 1
  {
    hide Value;
    if n < 10 {
      assert s[i] == Decimal(n)[0];
      OneDigit(s, i, v, n);
      assert Power10(1) == 10 * Power10(0);
    } else {
      LongNumeral(s, i, n, v);
    }
  }

  lemma {:induction false} LongNumeral(s: CStr, i: nat, n: nat, v: nat)
    requires i + |Decimal(n)| <= |s| && forall j :: 0 <= j < |Decimal(n)| ==> s[i + j] == Decimal(n)[j]
    requires n >= 10
    ensures Value(s, i, v) == Value(s, i + |Decimal(n)|, v * Power10(|Decimal(n)|) + n)
    decreases n, 0
  {
    hide Value;
    hide Decimal;
    var d := Decimal(n / 10);
    var k, w := i + |d|, v * Power10(|d|) + n / 10;
    DecimalEnds(n);
    assert forall j :: 0 <= j < |d| ==> d[j] == Decimal(n)[j];
    ValueOfDecimal(s, i, n / 10, v);
    assert s[k] == Decimal(n)[|d|];
    OneDigit(s, k, w, n % 10);
    OneMoreDigit(v, Power10(|d|), n / 10, n % 10);
  }

  lemma {:induction false} StartIs(s: CStr, i: nat, k: nat)
    requires i <= k <= |s| && (forall j :: i <= j < k ==> IsSpace(s[j])) && (k < |s| ==> !IsSpace(s[k]))
    ensures Start(s, i) == k
    decreases k - i
  {
    if i < k {
      StartIs(s, i + 1, k);
    }
  }

  /** The numeral of n stands at position i of s, with no digit behind it. */
  ghost predicate NumeralAt(s: CStr, i: nat, n: nat) {
    var e := i + |Decimal(n)|;
    e <= |s| && (forall j :: 0 <= j < |Decimal(n)| ==> s[i + j] == Decimal(n)[j]) && (e < |s| ==> !IsDigit(s[e]))
  }

  /** Spaces up to k, an optional sign there, then a numeral: atoi reads the number. */
  lemma NumeralDenotes(s: CStr, k: nat, signed: bool, n: nat)
    requires NumeralAt(s, if signed then k + 1 else k, n)
    requires (forall j :: 0 <= j < k ==> IsSpace(s[j])) && (signed ==> IsSign(s[k]))
    ensures Denotes(s) == if signed && s[k] == MINUS then 0 - n else n
  {
    var i := if signed then k + 1 else k;
    assert s[i + 0] == Decimal(n)[0];
    StartIs(s, 0, k);
    ValueOfDecimal(s, i, n, 0);
  }

  /** Without a digit behind spaces and sign the result is 0. */
  lemma NoNumeralIsZero(s: CStr)
    requires var k := Start(s, 0); var i := if k < |s| && IsSign(s[k]) then k + 1 else k; i == |s| || !IsDigit(s[i])
    ensures Denotes(s) == 0
  {
  }

  /** The characters atoi skips, takes for digits and for signs. */
  lemma Characters(c: Byte)
    ensures IsSpace(c) <==> c == 0x20 || 0x09 <= c <= 0x0D
    ensures IsDigit(c) <==> exists d :: 0 <= d < 10 && Decimal(d) == [c]
    ensures IsSign(c) <==> c == 0x2B || c == 0x2D
    ensures c == MINUS <==> c == 0x2D
  {
    if IsDigit(c) {
      assert Decimal(c - 0x30) == [c];
    }
  }

  /** A further digit d makes ten times the number and d. */
  lemma DecimalPlaces(n: nat, d: nat)
    requires n > 0 && d < 10
    ensures Decimal(d) == [0x30 + d] && Decimal(10 * n + d) == Decimal(n) + Decimal(d)
  {
  }

  /** atoi (4-29). C leaves the result undefined when the number does not fit an int. */
  method AtoI(s: seq<Byte>) returns (r: int)
    requires 0 in s && Magnitude(Content(s)) <= INT_MAX
    ensures r == Denotes(Content(s))
  {
    ghost var text := Content(s);
    var res: int, sign: Byte, i := 0, 0x20, 0;
    while IsSpace(s[i])
      invariant i <= |text| && Start(text, i) == Start(text, 0)
      decreases |s| - i
    {
      i := i + 1;
    }
    if s[i] == MINUS || s[i] == PLUS {
      sign := s[i];
      i := i + 1;
    }
    while 0x30 <= s[i] <= 0x39
      invariant i <= |text| && 0 <= res && Value(text, i, res) == Magnitude(text)
      decreases |s| - i
    {
      res := res * 10 + (s[i] - 0x30);
      i := i + 1;
    }
    r := if sign == MINUS then res * -1 else res;
  }
}
