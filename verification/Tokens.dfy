/** lib/string.c: strtok. */
module Tokens {
  import opened Common
  import opened CStrings
  import opened Splitting

  datatype Ptr = Null | At(buf: array<Byte>, pos: nat)

  /** A C string starts at pos. */
  ghost predicate StringAt(b: seq<Byte>, pos: nat)
    decreases |b| - pos
  {
    pos < |b| && (b[pos] == 0 || StringAt(b, pos + 1))
  }

  /** The position of the NUL that ends it. */
  ghost function End(b: seq<Byte>, pos: nat): (n: nat)
    requires StringAt(b, pos)
    ensures pos <= n < |b| && b[n] == 0
    decreases |b| - pos
  {
    if b[pos] == 0 then pos else End(b, pos + 1)
  }

  /** Every position of a string starts a string with the same end, and only there is a NUL. */
  lemma {:induction false} StringFrom(b: seq<Byte>, pos: nat, c: nat)
    requires StringAt(b, pos) && pos <= c <= End(b, pos)
    ensures StringAt(b, c) && End(b, c) == End(b, pos) && (b[c] == 0 <==> c == End(b, pos))
    decreases |b| - pos
  {
    if pos < c {
      StringFrom(b, pos + 1, c);
    }
  }

  lemma {:induction false} EndIs(b: seq<Byte>, pos: nat, n: nat)
    requires pos <= n < |b| && b[n] == 0 && forall i :: pos <= i < n ==> b[i] != 0
    ensures StringAt(b, pos) && End(b, pos) == n
    decreases n - pos
  {
    if pos < n {
      EndIs(b, pos + 1, n);
    }
  }

  /** The string at pos, as the other string functions see it. */
  lemma StringContent(b: seq<Byte>, pos: nat, n: nat)
    requires pos <= n < |b| && b[n] == 0 && forall i :: pos <= i < n ==> b[i] != 0
    ensures 0 in b[pos..] && Content(b[pos..]) == b[pos..n]
  {
  }

  lemma {:induction false} SameString(b: seq<Byte>, b': seq<Byte>, pos: nat)
    requires StringAt(b, pos) && |b'| == |b| && forall i :: pos <= i < |b| ==> b'[i] == b[i]
    ensures StringAt(b', pos) && End(b', pos) == End(b, pos)
    decreases |b| - pos
  {
    if b[pos] != 0 {
      SameString(b, b', pos + 1);
    }
  }

  ghost predicate Points(s: Ptr)
    reads if s.At? then {s.buf} else {}
  {
    s.At? ==> StringAt(s.buf[..], s.pos)
  }

  /** Which of the characters before position n are delimiters. */
  function Marks(b: seq<Byte>, n: nat, delims: CStr): seq<bool>
    requires n <= |b|
  {
    seq(n, i requires 0 <= i < n => b[i] in delims)
  }

  /** The first token of the string from pos on whose NUL is at n: delimiters up to i, then none up to j,
      where there is one again or the NUL. */
  ghost predicate FirstWord(b: seq<Byte>, pos: nat, n: nat, delims: CStr, i: nat, j: nat) {
    && pos <= i < j <= n < |b| && (forall x :: pos <= x < i ==> b[x] in delims)
    && (forall x :: i <= x < j ==> b[x] !in delims) && (j == n || b[j] in delims)
  }

  /** A search in the string finds that token exactly when there is one, and finds none exactly when only
      delimiters are left. */
  lemma FirstPieceIff(b: seq<Byte>, pos: nat, n: nat, delims: CStr, i: nat, j: nat)
    requires pos <= n < |b|
    ensures var p := FirstPiece(Marks(b, n, delims), pos);
      && (p == (i, j) && i < n <==> FirstWord(b, pos, n, delims, i, j))
      && (p.0 == n <==> forall x :: pos <= x < n ==> b[x] in delims)
  {
    var m := Marks(b, n, delims);
    var p := FirstPiece(m, pos);
    Skipped(m, pos);
    NotStopped(m, p.0);
    assert forall x :: 0 <= x < n ==> (m[x] <==> b[x] in delims);
    if p.0 < n {
      assert !m[p.0];
      assert FirstWord(b, pos, n, delims, p.0, p.1);
    }
    if FirstWord(b, pos, n, delims, i, j) {
      assert !m[i] && (j < n ==> m[j]);
      FirstPieceIs(m, pos, i, j);
    }
  }

  /** The bytes after strtok has ended the token that stops at e. */
  function Cut(b: seq<Byte>, n: nat, e: nat): seq<Byte>
    requires e <= n < |b|
  {
    if e == n then b else b[e := 0]
  }

  /** What strtok has to keep of a string whose NUL is at n, to go on at c. */
  function Kept(buf: array<Byte>, c: nat, n: nat): Ptr {
    if c <= n then At(buf, c) else Null
  }

  class Tokeniser {
    var tokTmp: Ptr

    constructor ()
      ensures tokTmp == Null
    {
      tokTmp := Null;
    }

    /** The loop of 48-55. */
    method SkipDelims(buf: array<Byte>, s: nat, s2: seq<Byte>, ghost n: nat) returns (s': nat)
      requires 0 in s2 && StringAt(buf[..], s) && n == End(buf[..], s)
      ensures s' == Skip(Marks(buf[..], n, Content(s2)), s)
    {
      ghost var delims := Content(s2);
      ghost var m := Marks(buf[..], n, delims);
      s' := s;
      var p := 0;
      while s2[p] != 0 && buf[s'] != 0
        invariant s <= s' <= n && (buf[s'] == 0 <==> s' == n) && Skip(m, s') == Skip(m, s)
        invariant p <= |delims| && forall q :: 0 <= q < p ==> delims[q] != buf[s']
        decreases n - s', |delims| - p
      {
        if buf[s'] == s2[p] {
          assert delims[p] == buf[s'];
          s' := s' + 1;
          p := 0;
          StringFrom(buf[..], s, s');
          continue;
        }
        p := p + 1;
      }
      assert s2[p] == 0 ==> p == |delims|;
      assert s' < n ==> !m[s'];
    }

    /** The inner loop of 65-70. */
    method IsDelim(c: Byte, s2: seq<Byte>) returns (r: bool)
      requires 0 in s2
      ensures r <==> c in Content(s2)
    {
      var p := 0;
      while s2[p] != 0
        invariant p <= |Content(s2)| && c !in s2[..p]
        decreases |s2| - p
      {
        if c == s2[p] {
          assert Content(s2)[p] == c;
          return true;
        }
        p := p + 1;
      }
      return false;
    }

    /** The loop of 62-75: the token that starts at s ends. */
    method EndToken(buf: array<Byte>, s: nat, s2: seq<Byte>, ghost n: nat)
      requires 0 in s2 && StringAt(buf[..], s) && n == End(buf[..], s)
      modifies this, buf
      ensures var e := Stop(Marks(old(buf[..]), n, Content(s2)), s);
        buf[..] == Cut(old(buf[..]), n, e) && tokTmp == Kept(buf, e + 1, n)
    {
      ghost var m := Marks(buf[..], n, Content(s2));
      tokTmp := At(buf, s);
      while buf[tokTmp.pos] != 0
        invariant tokTmp.At? && tokTmp.buf == buf && buf[..] == old(buf[..])
        invariant s <= tokTmp.pos <= n && (buf[tokTmp.pos] == 0 <==> tokTmp.pos == n)
        invariant Stop(m, tokTmp.pos) == Stop(m, s)
        decreases n - tokTmp.pos
      {
        var found := IsDelim(buf[tokTmp.pos], s2);
        if found {
          buf[tokTmp.pos] := 0;
          tokTmp := At(buf, tokTmp.pos + 1);
          return;
        }
        tokTmp := At(buf, tokTmp.pos + 1);
        StringFrom(buf[..], s, tokTmp.pos);
      }
      tokTmp := Null;
    }

    /** 47-76: the next token of what tokTmp points to. */
    method NextToken(s2: seq<Byte>) returns (r: Ptr)
      requires 0 in s2 && tokTmp.At? && StringAt(tokTmp.buf[..], tokTmp.pos)
      modifies this, tokTmp.buf
      ensures Result(old(tokTmp), old(tokTmp.buf[..]), Content(s2), r)
    {
      var buf := tokTmp.buf;
      ghost var n := End(buf[..], tokTmp.pos);
      var s := SkipDelims(buf, tokTmp.pos, s2, n);
      StringFrom(buf[..], tokTmp.pos, s);
      if buf[s] == 0 {
        tokTmp := Null;
        return Null;
      }
      EndToken(buf, s, s2, n);
      return At(buf, s);
    }

    /** What strtok does to the string at from, in a buffer that held b: it returns where the first
        non-delimiter is, overwrites the one delimiter that ends the token, and keeps the rest. */
    ghost predicate Result(from: Ptr, b: seq<Byte>, delims: CStr, r: Ptr)
      requires from.At? && StringAt(b, from.pos)
      reads this, from.buf
    {
      var n := End(b, from.pos);
      var p := FirstPiece(Marks(b, n, delims), from.pos);
      if p.0 == n then r == Null && tokTmp == Null && from.buf[..] == b
      else r == At(from.buf, p.0) && from.buf[..] == Cut(b, n, p.1) && tokTmp == Kept(from.buf, p.1 + 1, n)
    }

    /** strtok (30-77). It works on s1 or, when that is NULL, on what the last call kept; the delimiters
        may differ from call to call. */
    method StrTok(s1: Ptr, s2: seq<Byte>) returns (r: Ptr)
      requires 0 in s2 && Points(s1) && (s1 == Null ==> Points(tokTmp))
      modifies this, if s1.At? then {s1.buf} else if tokTmp.At? then {tokTmp.buf} else {}
      ensures s1.At? ==> Result(s1, old(s1.buf[..]), Content(s2), r)
      ensures s1 == Null && old(tokTmp).At? ==> Result(old(tokTmp), old(tokTmp.buf[..]), Content(s2), r)
      ensures s1 == Null && old(tokTmp) == Null ==> r == Null && tokTmp == Null
    {
      if s1 != Null {
        tokTmp := s1;
      } else if tokTmp == Null {
        return Null;
      }
      r := NextToken(s2);
    }
  }

  // ------------------------------------------------------------ all tokens of a string

  /** The strings that the cuts leave at the starts of the tokens. */
  lemma CutStrings(b: seq<Byte>, m: seq<bool>, pos: nat, b': seq<Byte>, ps: seq<(nat, nat)>, n: nat, i: nat)
    requires StringAt(b, pos) && |m| == End(b, pos) && i < n <= |ps| && Found(m, pos, ps, n)
    requires (forall l {:trigger ps[l]} :: 0 <= l < n ==> ps[l].1 < |b|) && CutBehind(b, ps, n, b')
    ensures ps[i].0 <= ps[i].1 <= |m| && 0 in b'[ps[i].0..] && Content(b'[ps[i].0..]) == b[ps[i].0..ps[i].1]
  {
    TokensAreUncut(m, pos, ps, n, i, i);
    forall x | ps[i].0 <= x < ps[i].1 ensures b'[x] == b[x] != 0 {
      StringFrom(b, pos, x);
      forall l | 0 <= l < n ensures ps[l].1 != x {
        TokensAreUncut(m, pos, ps, n, i, l);
      }
    }
    StringContent(b', ps[i].0, ps[i].1);
    assert b'[ps[i].0..ps[i].1] == b[ps[i].0..ps[i].1];
  }

  /** A search in an altered buffer finds the same when the bytes from there on are what they were. */
  lemma SearchGoesOn(b: seq<Byte>, delims: CStr, b': seq<Byte>, c: nat)
    requires StringAt(b, c) && |b'| == |b| && forall i :: c <= i < |b| ==> b'[i] == b[i]
    ensures StringAt(b', c) && End(b', c) == End(b, c)
    ensures FirstPiece(Marks(b', End(b, c), delims), c) == FirstPiece(Marks(b, End(b, c), delims), c)
  {
    SameString(b, b', c);
    var m, m' := Marks(b, End(b, c), delims), Marks(b', End(b, c), delims);
    SameFrom(m, m', c);
    SameFrom(m, m', Skip(m, c));
  }

  /** The tokens ps of the string at pos of buffer contents b have been cut off; the contents are now given. */
  ghost predicate SoFar(now: seq<Byte>, b: seq<Byte>, m: seq<bool>, pos: nat, ps: seq<(nat, nat)>)
    requires |m| < |b|
  {
    && Found(m, pos, ps, |ps|) && pos <= From(pos, ps, |ps|) <= |b|
    && (forall l {:trigger ps[l]} :: 0 <= l < |ps| ==> ps[l].1 <= |m|) && CutBehind(b, ps, |ps|, now)
    && (forall x :: From(pos, ps, |ps|) <= x < |b| ==> now[x] == b[x])
  }

  lemma OneMoreToken(now: seq<Byte>, b: seq<Byte>, m: seq<bool>, pos: nat, ps: seq<(nat, nat)>)
    requires |m| < |b| && b[|m|] == 0 && SoFar(now, b, m, pos, ps) && From(pos, ps, |ps|) <= |m|
    requires FirstPiece(m, From(pos, ps, |ps|)).0 < |m|
    ensures var p := FirstPiece(m, From(pos, ps, |ps|)); SoFar(Cut(now, |m|, p.1), b, m, pos, ps + [p])
  {
    var p := FirstPiece(m, From(pos, ps, |ps|));
    var ps' := ps + [p];
    forall j | 0 <= j < |ps'| ensures IsToken(m, pos, ps', j) {
      assert j < |ps| ==> IsToken(m, pos, ps, j);
    }
    var now' := Cut(now, |m|, p.1);
    assert forall l :: 0 <= l < |ps| ==> ps'[l] == ps[l];
    forall x | 0 <= x < |b| && (forall i {:trigger ps'[i]} :: 0 <= i < |ps'| ==> ps'[i].1 != x)
      ensures now'[x] == b[x]
    {
      assert ps'[|ps|] == p;
      assert forall i :: 0 <= i < |ps| ==> ps[i].1 == ps'[i].1 != x;
    }
  }

  /** A call that goes on at c, in a buffer that from there on holds what b does. */
  method GoOn(tok: Tokeniser, s1: Ptr, buf: array<Byte>, s2: seq<Byte>, ghost b: seq<Byte>, ghost c: nat)
    returns (r: Ptr)
    requires 0 in s2 && StringAt(b, c) && |b| == buf.Length && forall i :: c <= i < |b| ==> buf[..][i] == b[i]
    requires At(buf, c) == if s1 == Null then tok.tokTmp else s1
    modifies tok, buf
    ensures var n := End(b, c); var p := FirstPiece(Marks(b, n, Content(s2)), c);
      if p.0 == n then r == Null && tok.tokTmp == Null && buf[..] == old(buf[..])
      else r == At(buf, p.0) && buf[..] == Cut(old(buf[..]), n, p.1) && tok.tokTmp == Kept(buf, p.1 + 1, n)
  {
    SearchGoesOn(b, Content(s2), buf[..], c);
    r := tok.StrTok(s1, s2);
  }

  /** token is what the call of strtok after the calls for ps returned. */
  ghost predicate Returned(token: Ptr, kept: Ptr, buf: array<Byte>, now: seq<Byte>, b: seq<Byte>, m: seq<bool>,
                           pos: nat, ps: seq<(nat, nat)>)
    requires |m| < |b|
  {
    if token == Null then AllFound(m, pos, ps) && kept == Null && SoFar(now, b, m, pos, ps)
    else
      var c := From(pos, ps, |ps|);
      && c <= |m| && token == At(buf, FirstPiece(m, c).0) && SoFar(now, b, m, pos, ps + [FirstPiece(m, c)])
      && kept == Kept(buf, FirstPiece(m, c).1 + 1, |m|)
  }

  lemma GoneOn(now: seq<Byte>, buf: array<Byte>, b: seq<Byte>, m: seq<bool>, pos: nat, ps: seq<(nat, nat)>,
               r: Ptr, kept: Ptr, now': seq<Byte>)
    requires |m| < |b| && b[|m|] == 0 && SoFar(now, b, m, pos, ps)
    requires var c := From(pos, ps, |ps|); c <= |m| ==>
      var p := FirstPiece(m, c);
      if p.0 == |m| then r == Null && kept == Null && now' == now
      else r == At(buf, p.0) && now' == Cut(now, |m|, p.1) && kept == Kept(buf, p.1 + 1, |m|)
    requires From(pos, ps, |ps|) > |m| ==> r == Null && kept == Null && now' == now
    ensures Returned(r, kept, buf, now', b, m, pos, ps)
  {
    if r != Null {
      OneMoreToken(now, b, m, pos, ps);
    }
  }

  /** One more call finds one more token, or finds that there is none and leaves NULL behind. */
  method OneMore(tok: Tokeniser, s1: Ptr, buf: array<Byte>, s2: seq<Byte>,
                 ghost b: seq<Byte>, ghost m: seq<bool>, ghost pos: nat, ghost ps: seq<(nat, nat)>) returns (r: Ptr)
    requires 0 in s2 && StringAt(b, pos) && m == Marks(b, End(b, pos), Content(s2))
    requires SoFar(buf[..], b, m, pos, ps)
    requires Kept(buf, From(pos, ps, |ps|), |m|) == if s1 == Null then tok.tokTmp else s1
    modifies tok, buf
    ensures Returned(r, tok.tokTmp, buf, buf[..], b, m, pos, ps)
  {
    ghost var c, now := From(pos, ps, |ps|), buf[..];
    if s1 == Null && tok.tokTmp == Null {
      r := tok.StrTok(Null, s2);
    } else {
      StringFrom(b, pos, c);
      r := GoOn(tok, s1, buf, s2, b, c);
    }
    GoneOn(now, buf, b, m, pos, ps, r, tok.tokTmp, buf[..]);
  }

  lemma ReturnedFound(token: Ptr, kept: Ptr, buf: array<Byte>, now: seq<Byte>, b: seq<Byte>, m: seq<bool>, pos: nat,
                      ps: seq<(nat, nat)>)
    requires |m| < |b| && Returned(token, kept, buf, now, b, m, pos, ps)
    ensures Found(m, pos, ps, |ps|)
  {
    if token != Null {
      var all := ps + [FirstPiece(m, From(pos, ps, |ps|))];
      forall j | 0 <= j < |ps| ensures IsToken(m, pos, ps, j) {
        assert IsToken(m, pos, all, j);
      }
    }
  }

  /** The pointers returned so far hold their tokens. */
  lemma ReturnedString(token: Ptr, kept: Ptr, buf: array<Byte>, now: seq<Byte>, b: seq<Byte>, m: seq<bool>, pos: nat,
                       ps: seq<(nat, nat)>, i: nat)
    requires StringAt(b, pos) && |m| == End(b, pos) && Returned(token, kept, buf, now, b, m, pos, ps) && i < |ps|
    ensures |now| == |b| && ps[i].0 <= ps[i].1 <= |m|
    ensures 0 in now[ps[i].0..] && Content(now[ps[i].0..]) == b[ps[i].0..ps[i].1]
  {
    if token == Null {
      CutStrings(b, m, pos, now, ps, |ps|, i);
    } else {
      var all := ps + [FirstPiece(m, From(pos, ps, |ps|))];
      CutStrings(b, m, pos, now, all, |all|, i);
    }
  }

  /** In bytes: the tokens of the string at pos are its longest stretches of non-delimiters. */
  lemma TokenBytes(b: seq<Byte>, pos: nat, n: nat, delims: CStr, ps: seq<(nat, nat)>, i: nat, j: nat)
    requires pos <= n < |b| && b[n] == 0 && forall x :: pos <= x < n ==> b[x] != 0
    ensures StringAt(b, pos)
    ensures AllFound(Marks(b, End(b, pos), delims), pos, ps) ==>
      ((i, j) in ps <==>
        && pos <= i < j <= n && (forall x :: i <= x < j ==> b[x] !in delims)
        && (i == pos || b[i - 1] in delims) && (j == n || b[j] in delims))
  {
    EndIs(b, pos, n);
    var m := Marks(b, n, delims);
    if AllFound(m, pos, ps) {
      TokensAreRuns(m, pos, ps, i, j);
      assert forall x :: 0 <= x < n ==> m[x] == (b[x] in delims);
    }
  }

  /** The customary loop over strtok: the first call names the string, the others pass NULL. */
  method Tokenise(tok: Tokeniser, buf: array<Byte>, pos: nat, s2: seq<Byte>, ghost b: seq<Byte>, ghost m: seq<bool>)
    returns (starts: seq<nat>, ghost ps: seq<(nat, nat)>)
    requires 0 in s2 && StringAt(buf[..], pos) && b == buf[..] && m == Marks(b, End(b, pos), Content(s2))
    modifies tok, buf
    ensures AllFound(m, pos, ps) && tok.tokTmp == Null && SoFar(buf[..], b, m, pos, ps)
    ensures |starts| == |ps| && forall i :: 0 <= i < |ps| ==> starts[i] == ps[i].0
  {
    starts, ps := [], [];
    var token := OneMore(tok, At(buf, pos), buf, s2, b, m, pos, ps);
    while token != Null
      invariant Returned(token, tok.tokTmp, buf, buf[..], b, m, pos, ps)
      invariant |starts| == |ps| && forall i :: 0 <= i < |ps| ==> starts[i] == ps[i].0
      decreases token.At?, |b| - From(pos, ps, |ps|)
    {
      starts := starts + [token.pos];
      ps := ps + [FirstPiece(m, From(pos, ps, |ps|))];
      token := OneMore(tok, Null, buf, s2, b, m, pos, ps);
    }
  }

  /** The calls find all tokens ps, in order; nothing but the byte behind each of them is overwritten, so
      that afterwards the pointers they returned hold the tokens; and strtok stays at NULL. */
  method AllTokens(tok: Tokeniser, buf: array<Byte>, pos: nat, s2: seq<Byte>)
    returns (starts: seq<nat>, ghost ps: seq<(nat, nat)>)
    requires 0 in s2 && StringAt(buf[..], pos)
    modifies tok, buf
    ensures AllFound(Marks(old(buf[..]), End(old(buf[..]), pos), Content(s2)), pos, ps) && tok.tokTmp == Null
    ensures |starts| == |ps| && forall i :: 0 <= i < |ps| ==> starts[i] == ps[i].0 <= ps[i].1 < buf.Length
    ensures CutBehind(old(buf[..]), ps, |ps|, buf[..])
    ensures forall i :: 0 <= i < |ps| ==>
      0 in buf[..][starts[i]..] && Content(buf[..][starts[i]..]) == old(buf[..])[ps[i].0..ps[i].1]
  {
    ghost var b := buf[..];
    ghost var m := Marks(b, End(b, pos), Content(s2));
    starts, ps := Tokenise(tok, buf, pos, s2, b, m);
    forall i | 0 <= i < |ps|
      ensures ps[i].0 <= ps[i].1 < |b| && 0 in buf[..][starts[i]..]
      ensures Content(buf[..][starts[i]..]) == b[ps[i].0..ps[i].1]
    {
      CutStrings(b, m, pos, buf[..], ps, |ps|, i);
    }
  }
}
