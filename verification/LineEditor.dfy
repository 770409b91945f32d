/** The line editor of serial_poll (kernel/serial.c:81-197) as key events on two lists. */
module LineEditor {
  import opened Common
  import opened Terminals

  /** The characters the editor stores; '~' is its delete key. */
  type Letter = b: Byte | 0x20 <= b <= 0x7D witness 0x20

  datatype Key = Char(b: Letter) | Backspace | Delete | Left | Right | Ignored | Return | Newline

  /** The text before the cursor and the text from the cursor on. */
  datatype Line = Line(left: seq<Letter>, right: seq<Letter>) {
    function Text(): seq<Letter> { left + right }
  }

  const EMPTY := Line([], [])

  predicate Ends(key: Key) {
    key.Return? || key.Newline?
  }

  function Apply(line: Line, key: Key): Line {
    match key
    case Char(b) => Line(line.left + [b], line.right)
    case Backspace => if line.left == [] then line else Line(line.left[..|line.left| - 1], line.right)
    case Delete => if line.right == [] then line else Line(line.left, line.right[1..])
    case Left => if line.left == [] then line else
      Line(line.left[..|line.left| - 1], [line.left[|line.left| - 1]] + line.right)
    case Right => if line.right == [] then line else Line(line.left + [line.right[0]], line.right[1..])
    case _ => line
  }

  /** What the editor sends for a key. */
  function Echo(line: Line, key: Key): seq<Byte> {
    match key
    case Char(b) => [b] + line.right + Lefts(|line.right|)
    case Backspace => if line.left == [] then [] else
      Lefts(1) + line.right + [SPACE] + Lefts(|line.right| + 1)
    case Delete => if line.right == [] then [] else
      line.right[1..] + [SPACE] + Lefts(|line.right|)
    case Left => if line.left == [] then [] else [ESC, BRACKET, CUB]
    case Right => if line.right == [] then [] else [ESC, BRACKET, CUF]
    case Return => [LF]
    case _ => []
  }

  // ------------------------------------------------------------ laws of editing

  /** Each key, seen as an edit of the text at the cursor position. */
  lemma EditsAtCursor(line: Line, key: Key)
    ensures var t, c, t', c' := line.Text(), |line.left|, Apply(line, key).Text(), |Apply(line, key).left|;
      match key
      case Char(b) => t' == t[..c] + [b] + t[c..] && c' == c + 1
      case Backspace => if c > 0 then t' == t[..c - 1] + t[c..] && c' == c - 1 else t' == t && c' == c
      case Delete => (if c < |t| then t' == t[..c] + t[c + 1..] else t' == t) && c' == c
      case Left => t' == t && c' == (if c > 0 then c - 1 else c)
      case Right => t' == t && c' == (if c < |t| then c + 1 else c)
      case _ => t' == t && c' == c
  {
  }

  /** The bytes sent for each key, with the text t and the cursor c before it: what stands behind the cursor
      is sent again, followed by a blank where it has become shorter, and as many left sequences. */
  lemma EchoBytes(line: Line, key: Key)
    ensures var t, c, sent := line.Text(), |line.left|, Echo(line, key);
      match key
      case Char(b) => sent == [b] + t[c..] + Lefts(|t| - c)
      case Backspace => sent == if c == 0 then [] else Lefts(1) + t[c..] + [0x20] + Lefts(|t| - c + 1)
      case Delete => sent == if c == |t| then [] else t[c + 1..] + [0x20] + Lefts(|t| - c)
      case Left => sent == if c == 0 then [] else [0x1B, 0x5B, 0x44]
      case Right => sent == if c == |t| then [] else [0x1B, 0x5B, 0x43]
      case Return => sent == [0x0A]
      case Newline => sent == []
      case Ignored => sent == [] && Apply(line, key) == line
  {
    var t, c := line.Text(), |line.left|;
    assert t[c..] == line.right && (line.right != [] ==> t[c + 1..] == line.right[1..]);
  }

  lemma BackspaceUndoesChar(line: Line, b: Letter)
    ensures Apply(Apply(line, Char(b)), Backspace) == line
  {
  }

  /** Left then right comes back exactly unless the cursor is stuck at the start of a non-empty text. */
  lemma RightUndoesLeftIff(line: Line)
    ensures Apply(Apply(line, Left), Right) == line <==> line.left != [] || line.right == []
  {
  }

  lemma LeftUndoesRightIff(line: Line)
    ensures Apply(Apply(line, Right), Left) == line <==> line.right != [] || line.left == []
  {
  }

  /** Backspace is left and delete, exactly unless the cursor is at the start of a non-empty text. */
  lemma BackspaceIsLeftDeleteIff(line: Line)
    ensures Apply(Apply(line, Left), Delete) == Apply(line, Backspace) <==> line.left != [] || line.right == []
  {
  }

  // ------------------------------------------------------------ the screen

  /** The row as it was at the prompt, then the text, then blanks, with the active column at the cursor. */
  ghost predicate Shows(t: Terminal, prompt: Terminal, line: Line) {
    && t.parser == Ground && t.left == prompt.left && t.col == prompt.col + |line.left|
    && forall x {:trigger t.row(x)} :: t.row(x) == Cell(prompt, line.Text(), x)
  }

  function Cell(prompt: Terminal, text: seq<Letter>, x: int): Byte {
    if x < prompt.col then prompt.row(x) else if x < prompt.col + |text| then text[x - prompt.col] else SPACE
  }

  lemma ShowsChar(t: Terminal, prompt: Terminal, line: Line, b: Letter)
    requires Shows(t, prompt, line)
    ensures Shows(FeedAll(t, Echo(line, Char(b))), prompt, Apply(line, Char(b)))
  {
    var text: seq<Byte> := [b] + line.right;
    var u := FeedAll(t, text);
    FeedText(t, text);
    FeedLefts(u, |line.right|);
    FeedConcat(t, text, Lefts(|line.right|));
  }

  lemma ShowsBackspace(t: Terminal, prompt: Terminal, line: Line)
    requires Shows(t, prompt, line) && line.left != []
    ensures Shows(FeedAll(t, Echo(line, Backspace)), prompt, Apply(line, Backspace))
  {
    var text: seq<Byte> := line.right + [SPACE];
    var u := FeedAll(t, Lefts(1));
    FeedLefts(t, 1);
    var v := FeedAll(u, text);
    FeedText(u, text);
    FeedLefts(v, |line.right| + 1);
    FeedConcat(u, text, Lefts(|line.right| + 1));
    FeedConcat(t, Lefts(1), text + Lefts(|line.right| + 1));
    assert Echo(line, Backspace) == Lefts(1) + (text + Lefts(|line.right| + 1));
  }

  lemma ShowsDelete(t: Terminal, prompt: Terminal, line: Line)
    requires Shows(t, prompt, line) && line.right != []
    ensures Shows(FeedAll(t, Echo(line, Delete)), prompt, Apply(line, Delete))
  {
    var text: seq<Byte> := line.right[1..] + [SPACE];
    var u := FeedAll(t, text);
    FeedText(t, text);
    FeedLefts(u, |line.right|);
    FeedConcat(t, text, Lefts(|line.right|));
  }

  /** The echo of a key turns the picture of the line into the picture of the edited line. */
  lemma EchoKeepsScreen(t: Terminal, prompt: Terminal, line: Line, key: Key)
    requires Shows(t, prompt, line) && !Ends(key)
    ensures Shows(FeedAll(t, Echo(line, key)), prompt, Apply(line, key))
  {
    match key
    case Char(b) => ShowsChar(t, prompt, line, b);
    case Backspace => if line.left != [] { ShowsBackspace(t, prompt, line); }
    case Delete => if line.right != [] { ShowsDelete(t, prompt, line); }
    case Left => FeedControl(t, CUB);
      assert Apply(line, Left).Text() == line.Text();
    case Right => FeedControl(t, CUF);
      assert Apply(line, Right).Text() == line.Text();
    case _ =>
  }

  // ------------------------------------------------------------ sessions

  /** Why serial_poll stops: the buffer is full, a key that ends the line, or no more input. */
  datatype End = Full | Ended(key: Key) | Starved

  /** The keys serial_poll acts on, why it stops, and how far it has read by then. */
  datatype Session = Stop(end: End, pos: nat) | Act(key: Key, rest: Session) {
    function Why(): End {
      if Stop? then end else rest.Why()
    }

    function ReadTo(): nat {
      if Stop? then pos else rest.ReadTo()
    }

    /** Only the last key ends the line. */
    predicate Proper() {
      if Stop? then end.Ended? ==> Ends(end.key) else !Ends(key) && rest.Proper()
    }
  }

  /** The line after a session that starts on one. */
  function Final(line: Line, s: Session): Line
    decreases s
  {
    match s
    case Stop(_, _) => line
    case Act(key, rest) => Final(Apply(line, key), rest)
  }

  /** The text a session leaves in the buffer: Return adds a line feed at the end. */
  function Polled(line: Line, s: Session): seq<Byte>
    decreases s
  {
    match s
    case Stop(end, _) => line.Text() + if end == Ended(Return) then [LF] else []
    case Act(key, rest) => Polled(Apply(line, key), rest)
  }

  /** What a session sends. */
  function Sent(line: Line, s: Session): seq<Byte>
    decreases s
  {
    match s
    case Stop(end, _) => if end.Ended? then Echo(line, end.key) else []
    case Act(key, rest) => Echo(line, key) + Sent(Apply(line, key), rest)
  }

  /** The screen and the line never drift apart, whatever is typed; Return then leaves the row. */
  lemma {:induction false} ScreenFollowsLine(t: Terminal, prompt: Terminal, line: Line, s: Session)
    requires Shows(t, prompt, line) && s.Proper() && !prompt.left
    ensures var u := FeedAll(t, Sent(line, s));
      u.left == (s.Why() == Ended(Return)) && Shows(u.(left := false), prompt, Final(line, s))
    decreases s
  {
    match s
    case Stop(end, _) =>
      if end == Ended(Return) {
        assert [LF][1..] == [];
        assert FeedAll(t, [LF]) == Feed(t, LF);
      }
    case Act(key, rest) =>
      EchoKeepsScreen(t, prompt, line, key);
      FeedConcat(t, Echo(line, key), Sent(Apply(line, key), rest));
      ScreenFollowsLine(FeedAll(t, Echo(line, key)), prompt, Apply(line, key), rest);
  }

  lemma {:induction false} PolledIsFinal(line: Line, s: Session)
    ensures Polled(line, s) == Final(line, s).Text() + if s.Why() == Ended(Return) then [LF] else []
    decreases s
  {
    if s.Act? {
      PolledIsFinal(Apply(line, s.key), s.rest);
    }
  }

  // ------------------------------------------------------------ keys from bytes

  /** The key at the front of the input and the number of its bytes; None when more input is needed. */
  function Decode(input: seq<Byte>, pos: nat): Option<(Key, nat)>
    requires pos <= |input|
  {
    if pos == |input| then None
    else if input[pos] == ESC then
      if |input| < pos + 3 then None
      else if input[pos + 1] == BRACKET && input[pos + 2] == CUF then Some((Right, 3))
      else if input[pos + 1] == BRACKET && input[pos + 2] == CUB then Some((Left, 3))
      else Some((Ignored, 3))
    else Some((OneByte(input[pos]), 1))
  }

  function OneByte(b: Byte): Key {
    if b == CR then Return
    else if b == LF then Newline
    else if b == 0x7F then Backspace
    else if b == 0x7E then Delete
    else if 0x20 <= b <= 0x7D then Char(b)
    else Ignored
  }

  /** The bytes that mean a key. A sequence behind ESC has three bytes; all but two of them, and all single
      bytes that are neither printable nor named here, are ignored. */
  predicate Means(bytes: seq<Byte>, key: Key) {
    match key
    case Char(b) => bytes == [b]
    case Backspace => bytes == [0x7F]
    case Delete => bytes == [0x7E]
    case Left => bytes == [0x1B, 0x5B, 0x44]
    case Right => bytes == [0x1B, 0x5B, 0x43]
    case Return => bytes == [0x0D]
    case Newline => bytes == [0x0A]
    case Ignored =>
      || (|bytes| == 1 && bytes[0] !in {0x0A, 0x0D, 0x1B} && !(0x20 <= bytes[0] <= 0x7F))
      || (|bytes| == 3 && bytes[0] == 0x1B && bytes != [0x1B, 0x5B, 0x43] && bytes != [0x1B, 0x5B, 0x44])
  }

  /** The input is read as a key exactly when the bytes at its front mean that key, and as nothing exactly when
      it is used up or stops within three bytes of an ESC. */
  lemma DecodeIff(input: seq<Byte>, pos: nat, key: Key, n: nat)
    requires pos <= |input|
    ensures Decode(input, pos) == Some((key, n)) <==> pos + n <= |input| && Means(input[pos..pos + n], key)
    ensures Decode(input, pos) == None <==> pos == |input| || (input[pos] == 0x1B && |input| < pos + 3)
  {
    if pos + n <= |input| {
      var bytes := input[pos..pos + n];
      assert forall i :: 0 <= i < n ==> bytes[i] == input[pos + i];
    }
  }

  /** What serial_poll makes of its input from pos on, with room for cap characters. */
  function Poll(input: seq<Byte>, pos: nat, line: Line, cap: nat): (s: Session)
    requires pos <= |input|
    ensures s.Proper() && pos <= s.ReadTo() <= |input|
    ensures s.Why() == Full <==> |Final(line, s).Text()| >= cap
    ensures |line.Text()| <= cap ==> |Final(line, s).Text()| <= cap
    decreases |input| - pos
  {
    if |line.Text()| >= cap then Stop(Full, pos)
    else match Decode(input, pos)
      case None => Stop(Starved, pos)
      case Some((key, n)) =>
        if Ends(key) then Stop(Ended(key), pos + n)
        else Act(key, Poll(input, pos + n, Apply(line, key), cap))
  }

  /** The session s reads the input from pos on key by key, each by the bytes that mean it. It stops as soon as
      the text has cap characters, at Return or Newline, or where no whole key is left. */
  predicate Reads(input: seq<Byte>, pos: nat, line: Line, cap: nat, s: Session)
    decreases s
  {
    pos <= |input| &&
    match s
    case Stop(Full, p) => p == pos && |line.Text()| >= cap
    case Stop(Starved, p) =>
      && p == pos && |line.Text()| < cap
      && (pos == |input| || (input[pos] == 0x1B && |input| < pos + 3))
    case Stop(Ended(key), p) =>
      && (key == Return || key == Newline) && |line.Text()| < cap
      && pos <= p <= |input| && Means(input[pos..p], key)
    case Act(key, rest) =>
      && key != Return && key != Newline && |line.Text()| < cap && pos < |input|
      && var next := if input[pos] == 0x1B then pos + 3 else pos + 1;
      next <= |input| && Means(input[pos..next], key) && Reads(input, next, Apply(line, key), cap, rest)
  }

  /** serial_poll has one such session with its input, the one that Poll gives. */
  lemma {:induction false} PollReads(input: seq<Byte>, pos: nat, line: Line, cap: nat, s: Session)
    requires pos <= |input|
    ensures Poll(input, pos, line, cap) == s <==> Reads(input, pos, line, cap, s)
    decreases s
  {
    hide Means;
    match s
    case Stop(Full, _) =>
    case Stop(Starved, _) => DecodeIff(input, pos, Ignored, 1);
    case Stop(Ended(key), p) => if pos <= p { DecodeIff(input, pos, key, p - pos); }
    case Act(key, rest) =>
      if pos < |input| {
        var n := if input[pos] == 0x1B then 3 else 1;
        DecodeIff(input, pos, key, n);
        if pos + n <= |input| { PollReads(input, pos + n, Apply(line, key), cap, rest); }
      }
  }

  // ------------------------------------------------------------ typing

  function Encode(key: Key): seq<Byte> {
    match key
    case Char(b) => [b]
    case Backspace => [0x7F]
    case Delete => [0x7E]
    case Left => [ESC, BRACKET, CUB]
    case Right => [ESC, BRACKET, CUF]
    case Ignored => [ESC, BRACKET, 0x41]  // arrow up
    case Return => [CR]
    case Newline => [LF]
  }

  function EncodeAll(s: Session): seq<Byte> {
    match s
    case Stop(end, _) => if end.Ended? then Encode(end.key) else []
    case Act(key, rest) => Encode(key) + EncodeAll(rest)
  }

  /** Decoding reads back one encoded key and leaves the rest. */
  lemma DecodeEncode(input: seq<Byte>, pos: nat, key: Key, rest: seq<Byte>)
    requires pos <= |input| && input[pos..] == Encode(key) + rest
    ensures Decode(input, pos) == Some((key, |Encode(key)|))
    ensures pos + |Encode(key)| <= |input| && input[pos + |Encode(key)|..] == rest
  {
  }

  /** The text stays below cap characters all the way. */
  predicate Room(line: Line, s: Session, cap: nat)
    decreases s
  {
    |line.Text()| < cap && (s.Act? ==> Room(Apply(line, s.key), s.rest, cap))
  }

  /** As long as the text stays below the room there is, every key typed is acted on, and a key that ends
      the line ends it. */
  lemma {:induction false} Typing(input: seq<Byte>, pos: nat, line: Line, s: Session, cap: nat)
    requires pos <= |input| && input[pos..] == EncodeAll(s) && Room(line, s, cap)
    requires s.Proper() && s.Why().Ended? && s.ReadTo() == |input|
    ensures Poll(input, pos, line, cap) == s
    decreases s
  {
    match s
    case Stop(end, _) =>
      assert input[pos..] == Encode(end.key) + [];
      DecodeEncode(input, pos, end.key, []);
    case Act(key, rest) =>
      DecodeEncode(input, pos, key, EncodeAll(rest));
      Typing(input, pos + |Encode(key)|, Apply(line, key), rest, cap);
  }
}
