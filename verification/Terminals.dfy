/**
 One row of a character-imaging device that follows ECMA-48 in what the line editor sends it: printable
 characters, CUB (section 8.3.18, ESC [ D) and CUF (section 8.3.20, ESC [ C). The row has no right margin.
 */
module Terminals {
  import opened Common

  const SPACE: Byte := 0x20
  const LF: Byte := 0x0A
  const CR: Byte := 0x0D
  const ESC: Byte := 0x1B
  const BRACKET: Byte := 0x5B
  const CUF: Byte := 0x43
  const CUB: Byte := 0x44

  datatype Parser = Ground | Escaped | Control

  /** The cells of the row by column, the active column, and whether a line feed has left the row. */
  datatype Terminal = Terminal(row: int -> Byte, col: nat, parser: Parser, left: bool)

  predicate Printable(b: Byte) {
    0x20 <= b <= 0x7E
  }

  function Feed(t: Terminal, b: Byte): Terminal {
    match t.parser
    case Ground =>
      if b == ESC then t.(parser := Escaped)
      else if b == LF then t.(left := true)
      else if Printable(b) then t.(row := Put(t.row, t.col, b), col := t.col + 1)
      else t
    case Escaped =>
      t.(parser := if b == BRACKET then Control else Ground)
    case Control =>
      t.(parser := Ground, col := if b == CUB then Back(t.col, 1) else if b == CUF then t.col + 1 else t.col)
  }

  function Put(row: int -> Byte, col: int, b: Byte): int -> Byte {
    x => if x == col then b else row(x)
  }

  /** n columns to the left, but not past the first. */
  function Back(col: nat, n: nat): nat {
    if n <= col then col - n else 0
  }

  /** What the terminal makes of a stretch of output. */
  function FeedAll(t: Terminal, bs: seq<Byte>): Terminal
    decreases |bs|
  {
    if bs == [] then t else FeedAll(Feed(t, bs[0]), bs[1..])
  }

  lemma {:induction false} FeedConcat(t: Terminal, a: seq<Byte>, b: seq<Byte>)
    ensures FeedAll(t, a + b) == FeedAll(FeedAll(t, a), b)
    decreases |a|
  {
    if a == [] {
      assert a + b == b;
    } else {
      assert (a + b)[1..] == a[1..] + b;
      FeedConcat(Feed(t, a[0]), a[1..], b);
    }
  }

  /** Printable text lands in consecutive cells from the active column on, and nowhere else. */
  lemma {:induction false} FeedText(t: Terminal, bs: seq<Byte>)
    requires t.parser == Ground && forall i :: 0 <= i < |bs| ==> Printable(bs[i])
    ensures var u := FeedAll(t, bs);
      && u.parser == Ground && u.left == t.left && u.col == t.col + |bs|
      && forall x {:trigger u.row(x)} :: u.row(x) == if t.col <= x < t.col + |bs| then bs[x - t.col] else t.row(x)
    decreases |bs|
  {
    if bs != [] {
      FeedText(Feed(t, bs[0]), bs[1..]);
    }
  }

  /** n times ESC [ D. */
  function Lefts(n: nat): seq<Byte> {
    if n == 0 then [] else [ESC, BRACKET, CUB] + Lefts(n - 1)
  }

  lemma FeedControl(t: Terminal, b: Byte)
    requires t.parser == Ground
    ensures FeedAll(t, [ESC, BRACKET, b]) == Feed(t.(parser := Control), b)
  {
    var bs := [ESC, BRACKET, b];
    var t1, t2 := t.(parser := Escaped), t.(parser := Control);
    assert bs[1..] == [BRACKET, b] && [BRACKET, b][1..] == [b];
    assert FeedAll(t, bs) == FeedAll(t1, [BRACKET, b]);
    assert FeedAll(t1, [BRACKET, b]) == FeedAll(t2, [b]);
    assert FeedAll(t2, [b]) == FeedAll(Feed(t2, b), []);
  }

  lemma {:induction false} FeedLefts(t: Terminal, n: nat)
    requires t.parser == Ground
    ensures FeedAll(t, Lefts(n)) == t.(col := Back(t.col, n))
    decreases n
  {
    if n > 0 {
      FeedControl(t, CUB);
      FeedConcat(t, [ESC, BRACKET, CUB], Lefts(n - 1));
      FeedLefts(t.(col := Back(t.col, 1)), n - 1);
    }
  }
}
