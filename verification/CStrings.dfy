/** lib/string.c: strcmp and strlen on NUL-terminated bytes. */
module CStrings {
  import opened Common

  /** The string a buffer holds: its bytes up to the first NUL. */
  function Content(buf: seq<Byte>): (s: CStr)
    requires 0 in buf
    ensures |s| < |buf| && s == buf[..|s|] && buf[|s|] == 0
  {
    if buf[0] == 0 then [] else [buf[0]] + Content(buf[1..])
  }

  lemma ContentAt(buf: seq<Byte>, n: nat)
    requires n < |buf| && buf[n] == 0 && 0 !in buf[..n]
    ensures 0 in buf && Content(buf) == buf[..n]
  {
  }

  /** Lexicographic order on byte strings. */
  ghost predicate LexLess(s: seq<Byte>, t: seq<Byte>) {
    t != [] && (s == [] || s[0] < t[0] || (s[0] == t[0] && LexLess(s[1..], t[1..])))
  }

  lemma {:induction false} LexLessAt(s: seq<Byte>, t: seq<Byte>, k: nat)
    requires k <= |s| && k <= |t| && s[..k] == t[..k]
    ensures LexLess(s, t) <==> LexLess(s[k..], t[k..])
  {
    if k > 0 {
      assert s[0] == s[..k][0] == t[..k][0] == t[0];
      assert s[1..][..k - 1] == s[..k][1..] == t[..k][1..] == t[1..][..k - 1];
      LexLessAt(s[1..], t[1..], k - 1);
      assert s[1..][k - 1..] == s[k..] && t[1..][k - 1..] == t[k..];
    } else {
      assert s[0..] == s && t[0..] == t;
    }
  }

  /** s comes first exactly when it is the shorter one of two that agree, or has the smaller byte where they
      first differ. */
  lemma {:induction false} LexLessIff(s: seq<Byte>, t: seq<Byte>)
    ensures LexLess(s, t) <==>
      exists k :: 0 <= k <= |s| && k < |t| && s[..k] == t[..k] && (k == |s| || s[k] < t[k])
    decreases |s|
  {
    if k: nat :| k <= |s| && k < |t| && s[..k] == t[..k] && (k == |s| || s[k] < t[k]) {
      LexLessAt(s, t, k);
    }
    if LexLess(s, t) {
      if s == [] || s[0] < t[0] {
        assert s[..0] == t[..0];
      } else {
        LexLessIff(s[1..], t[1..]);
        var u, v := s[1..], t[1..];
        var k: nat :| k <= |u| && k < |v| && u[..k] == v[..k] && (k == |u| || u[k] < v[k]);
        assert s[..k + 1] == [s[0]] + u[..k] && t[..k + 1] == [t[0]] + v[..k];
      }
    }
  }

  /** strcmp (string.c:5-19): zero exactly on equal strings, negative exactly when s1 is the smaller
      in lexicographic order, as string.h promises. */
  method StrCmp(s1: seq<Byte>, s2: seq<Byte>) returns (r: int)
    requires 0 in s1 && 0 in s2
    ensures r == 0 <==> Content(s1) == Content(s2)
    ensures r < 0 <==> LexLess(Content(s1), Content(s2))
  {
    ghost var a, b := Content(s1), Content(s2);
    var i := 0;
    while s1[i] != 0 && s1[i] == s2[i]
      invariant i <= |a| && i <= |b| && a[..i] == b[..i]
      decreases |a| - i
    {
      i := i + 1;
    }
    LexLessAt(a, b, i);
    var c1: int, c2: int := s1[i], s2[i];
    r := c1 - c2;
    assert i < |a| ==> a[i] == c1 != 0;
    assert i < |b| ==> b[i] == c2 != 0;
    assert i == |a| ==> c1 == 0;
    assert i == |b| ==> c2 == 0;
    if c1 == c2 {
      assert a == a[..i] && b == b[..i];
    }
  }

  /** strlen (string.c:21-28). */
  method StrLen(s: seq<Byte>) returns (len: nat)
    requires 0 in s
    ensures len == |Content(s)|
  {
    len := 0;
    while s[len] != 0
      invariant len <= |Content(s)|
      decreases |s| - len
    {
      len := len + 1;
    }
  }
}
