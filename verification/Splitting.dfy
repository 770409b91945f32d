/** Cutting a row of characters into tokens, given which of the characters are delimiters. */
module Splitting {

  /** The first position from pos on that is no delimiter, or the end. */
  function Skip(m: seq<bool>, pos: nat): (k: nat)
    requires pos <= |m|
    ensures pos <= k <= |m| && (k < |m| ==> !m[k])
    decreases |m| - pos
  {
    if pos == |m| || !m[pos] then pos else Skip(m, pos + 1)
  }

  lemma {:induction false} Skipped(m: seq<bool>, pos: nat)
    requires pos <= |m|
    ensures forall i :: pos <= i < Skip(m, pos) ==> m[i]
    decreases |m| - pos
  {
    if pos < |m| && m[pos] {
      Skipped(m, pos + 1);
    }
  }

  /** The first position from pos on that is a delimiter, or the end. */
  function Stop(m: seq<bool>, pos: nat): (e: nat)
    requires pos <= |m|
    ensures pos <= e <= |m| && (e < |m| ==> m[e])
    decreases |m| - pos
  {
    if pos == |m| || m[pos] then pos else Stop(m, pos + 1)
  }

  lemma {:induction false} NotStopped(m: seq<bool>, pos: nat)
    requires pos <= |m|
    ensures forall i :: pos <= i < Stop(m, pos) ==> !m[i]
    decreases |m| - pos
  {
    if pos < |m| && !m[pos] {
      NotStopped(m, pos + 1);
    }
  }

  /** Only what follows a position matters to the search from there. */
  lemma {:induction false} SameFrom(m: seq<bool>, m': seq<bool>, pos: nat)
    requires |m| == |m'| && pos <= |m| && forall x :: pos <= x < |m| ==> m[x] == m'[x]
    ensures Skip(m, pos) == Skip(m', pos) && Stop(m, pos) == Stop(m', pos)
    decreases |m| - pos
  {
    if pos < |m| {
      SameFrom(m, m', pos + 1);
    }
  }

  // ------------------------------------------------------------ tokens

  /** The token that a search from pos finds; it starts at the end when there is none. */
  function FirstPiece(m: seq<bool>, pos: nat): (p: (nat, nat))
    requires pos <= |m|
    ensures pos <= p.0 <= p.1 <= |m| && (p.0 < |m| ==> p.0 < p.1)
  {
    (Skip(m, pos), Stop(m, Skip(m, pos)))
  }

  /** Delimiters up to i and then none up to j, where there is one again or the end. */
  ghost predicate RunAt(m: seq<bool>, pos: nat, i: nat, j: nat) {
    && pos <= i < j <= |m| && (forall x :: pos <= x < i ==> m[x])
    && (forall x :: i <= x < j ==> !m[x]) && (j == |m| || m[j])
  }

  lemma FirstPieceIs(m: seq<bool>, pos: nat, i: nat, j: nat)
    requires RunAt(m, pos, i, j)
    ensures FirstPiece(m, pos) == (i, j)
  {
    Skipped(m, pos);
    NotStopped(m, Skip(m, pos));
    assert !m[i];
    assert j < |m| ==> m[j];
  }

  /** Where the search for piece j starts: at pos, and then behind the delimiter of the piece before. */
  function From(pos: nat, ps: seq<(nat, nat)>, j: nat): nat
    requires j <= |ps|
  {
    if j == 0 then pos else ps[j - 1].1 + 1
  }

  /** Piece j is what the search from behind the one before finds. */
  ghost predicate IsToken(m: seq<bool>, pos: nat, ps: seq<(nat, nat)>, j: nat)
    requires j < |ps|
  {
    var c := From(pos, ps, j);
    c <= |m| && ps[j] == FirstPiece(m, c) && ps[j].0 < |m|
  }

  /** The first n of ps are what n searches in a row find. */
  ghost predicate Found(m: seq<bool>, pos: nat, ps: seq<(nat, nat)>, n: nat)
    requires n <= |ps|
  {
    pos <= |m| && forall j :: 0 <= j < n ==> IsToken(m, pos, ps, j)
  }

  /** ps are all the tokens: the search behind the last one finds nothing. */
  ghost predicate AllFound(m: seq<bool>, pos: nat, ps: seq<(nat, nat)>) {
    Found(m, pos, ps, |ps|) && (From(pos, ps, |ps|) <= |m| ==> Skip(m, From(pos, ps, |ps|)) == |m|)
  }

  /** Positions i to j are a maximal non-empty stretch without delimiters of what starts at pos. */
  ghost predicate MaximalRun(m: seq<bool>, pos: nat, i: nat, j: nat) {
    && pos <= i < j <= |m| && (forall x :: i <= x < j ==> !m[x])
    && (i == pos || m[i - 1]) && (j == |m| || m[j])
  }

  /** A maximal run is the first token or a maximal run of what is left behind it. */
  lemma RunCases(m: seq<bool>, pos: nat, i: nat, j: nat)
    requires pos <= |m|
    ensures var p := FirstPiece(m, pos);
      MaximalRun(m, pos, i, j) <==> p.0 < |m| && ((i, j) == p || (p.1 < |m| && MaximalRun(m, p.1 + 1, i, j)))
  {
    Skipped(m, pos);
    NotStopped(m, Skip(m, pos));
    if MaximalRun(m, pos, i, j) {
      assert !m[i];
    }
  }

  lemma {:induction false} LaterRuns(m: seq<bool>, pos: nat, ps: seq<(nat, nat)>, i: nat, j: nat, l: nat)
    requires AllFound(m, pos, ps) && l <= |ps|
    ensures From(pos, ps, l) <= |m| && MaximalRun(m, From(pos, ps, l), i, j) <==>
      exists n :: l <= n < |ps| && ps[n] == (i, j)
    decreases |ps| - l
  {
    var c := From(pos, ps, l);
    if l < |ps| {
      assert IsToken(m, pos, ps, l);
      RunCases(m, c, i, j);
      LaterRuns(m, pos, ps, i, j, l + 1);
    } else if c <= |m| {
      RunCases(m, c, i, j);
    }
  }

  /** The tokens are exactly the maximal runs. */
  lemma TokensAreRuns(m: seq<bool>, pos: nat, ps: seq<(nat, nat)>, i: nat, j: nat)
    requires AllFound(m, pos, ps)
    ensures (i, j) in ps <==> MaximalRun(m, pos, i, j)
  {
    LaterRuns(m, pos, ps, i, j, 0);
  }

  /** They come in order, with a delimiter between any two. */
  lemma {:induction false} TokensInOrder(m: seq<bool>, pos: nat, ps: seq<(nat, nat)>, n: nat, j: nat, l: nat)
    requires n <= |ps| && Found(m, pos, ps, n) && j <= l < n
    ensures pos <= ps[j].0 < ps[j].1 <= |m| && ps[l].0 < ps[l].1 && (j < l ==> ps[j].1 < ps[l].0)
    decreases l
  {
    assert IsToken(m, pos, ps, l);
    if j < l {
      TokensInOrder(m, pos, ps, n, j, l - 1);
      assert IsToken(m, pos, ps, l - 1);
    } else if l > 0 {
      TokensInOrder(m, pos, ps, n, l - 1, l - 1);
    }
  }

  /** b' is b with the byte behind each of the first n tokens zeroed, and nothing else. */
  ghost predicate CutBehind(b: seq<int>, ps: seq<(nat, nat)>, n: nat, b': seq<int>)
    requires n <= |ps| && forall i {:trigger ps[i]} :: 0 <= i < n ==> ps[i].1 < |b|
  {
    && |b'| == |b| && (forall i {:trigger ps[i]} :: 0 <= i < n ==> b'[ps[i].1] == 0)
    && forall x :: 0 <= x < |b| && (forall i {:trigger ps[i]} :: 0 <= i < n ==> ps[i].1 != x) ==> b'[x] == b[x]
  }

  /** No cut falls into a token. */
  lemma TokensAreUncut(m: seq<bool>, pos: nat, ps: seq<(nat, nat)>, n: nat, i: nat, l: nat)
    requires n <= |ps| && Found(m, pos, ps, n) && i < n && l < n
    ensures pos <= ps[i].0 < ps[i].1 <= |m| && !(ps[i].0 <= ps[l].1 < ps[i].1)
  {
    TokensInOrder(m, pos, ps, n, i, i);
    if l < i {
      TokensInOrder(m, pos, ps, n, l, i);
    } else if i < l {
      TokensInOrder(m, pos, ps, n, i, l);
    }
  }
}
