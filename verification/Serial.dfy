/** kernel/serial.c: serial_poll and its helpers. */
module Serial {
  import opened Common
  import opened CStrings
  import opened LineEditor
  import opened Terminals

  /** An initialised port: the bytes that arrive, how many have been read, and the bytes sent. */
  class Port {
    const input: seq<Byte>
    var pos: nat
    var output: seq<Byte>

    /** serial_out (54-64). */
    method Out(bs: seq<Byte>)
      modifies this`output
      ensures output == old(output) + bs
    {
      var i := 0;
      while i < |bs|
        invariant i <= |bs| && output == old(output) + bs[..i]
      {
        output := output + [bs[i]];
        i := i + 1;
      }
    }

    /** inb on the data register; None when no byte arrives any more. */
    method In() returns (b: Option<Byte>)
      modifies this`pos
      ensures old(pos) < |input| ==> b == Some(input[old(pos)]) && pos == old(pos) + 1
      ensures old(pos) >= |input| ==> b == None && pos == old(pos)
    {
      if pos >= |input| {
        return None;
      }
      b := Some(input[pos]);
      pos := pos + 1;
    }
  }

  /** redraw_from_position (68-72). */
  method RedrawFromPosition(dev: Port, buffer: array<Byte>, start: nat, end: nat)
    requires start <= end <= buffer.Length
    modifies dev`output
    ensures dev.output == old(dev.output) + buffer[start..end]
  {
    var i := start;
    while i < end
      invariant start <= i <= end && dev.output == old(dev.output) + buffer[start..i]
    {
      dev.Out([buffer[i]]);
      i := i + 1;
    }
  }

  /** move_cursor_left (75-79). */
  method MoveCursorLeft(dev: Port, amount: nat)
    modifies dev`output
    ensures dev.output == old(dev.output) + Lefts(amount)
  {
    var i := 0;
    while i < amount
      invariant i <= amount && dev.output + Lefts(amount - i) == old(dev.output) + Lefts(amount)
    {
      dev.Out([ESC, BRACKET, CUB]);
      i := i + 1;
    }
  }

  /** The buffer and the two counters of serial_poll hold the line. */
  ghost predicate Holds(buffer: seq<Byte>, bytesRead: nat, cursorPosition: nat, line: Line) {
    bytesRead <= |buffer| && buffer[..bytesRead] == line.Text() && cursorPosition == |line.left|
  }

  lemma Halves(buffer: seq<Byte>, n: nat, left: seq<Byte>, right: seq<Byte>)
    requires n <= |buffer| && buffer[..n] == left + right
    ensures buffer[..|left|] == left && buffer[|left|..n] == right
  {
  }

  /** The loops of 137-139 and 159-161: the characters behind position at move one to the left. */
  method CloseGap(buffer: array<Byte>, at: nat, bytesRead: nat)
    requires at < bytesRead <= buffer.Length
    modifies buffer
    ensures forall j {:trigger buffer[j]} :: 0 <= j < buffer.Length ==>
      buffer[j] == if at <= j < bytesRead - 1 then old(buffer[j + 1]) else old(buffer[j])
  {
    var i := at;
    while i < bytesRead - 1
      invariant at <= i <= bytesRead - 1
      invariant forall j {:trigger buffer[j]} :: 0 <= j < buffer.Length ==>
        buffer[j] == if at <= j < i then old(buffer[j + 1]) else old(buffer[j])
    {
      buffer[i] := buffer[i + 1];
      i := i + 1;
    }
  }

  lemma Closed(b: seq<Byte>, b': seq<Byte>, at: nat, n: nat)
    requires at < n <= |b| == |b'|
    requires forall j {:trigger b'[j]} :: 0 <= j < |b| ==> b'[j] == if at <= j < n - 1 then b[j + 1] else b[j]
    ensures b'[..n - 1] == b[..at] + b[at + 1..n]
  {
  }

  /** The buffer after the character behind the first at ones has been removed. */
  method RemoveChar(buffer: array<Byte>, at: nat, bytesRead: nat, ghost line: Line, ghost line': Line)
    requires at < bytesRead && bytesRead <= buffer.Length && buffer[..bytesRead] == line.Text()
    requires |line'.left| == at && line'.Text() == line.Text()[..at] + line.Text()[at + 1..]
    modifies buffer
    ensures Holds(buffer[..], bytesRead - 1, at, line') && buffer[at..bytesRead - 1] == line'.right
  {
    ghost var was := buffer[..];
    assert was[..at] == was[..bytesRead][..at] && was[at + 1..bytesRead] == was[..bytesRead][at + 1..];
    CloseGap(buffer, at, bytesRead);
    Closed(was, buffer[..], at, bytesRead);
    Halves(buffer[..], bytesRead - 1, line'.left, line'.right);
  }

  /** The loop of 176-178 and the store of 179. */
  method OpenGap(buffer: array<Byte>, at: nat, bytesRead: nat, ch: Byte)
    requires at <= bytesRead < buffer.Length
    modifies buffer
    ensures forall j {:trigger buffer[j]} :: 0 <= j < buffer.Length ==>
      buffer[j] == if j == at then ch else if at < j <= bytesRead then old(buffer[j - 1]) else old(buffer[j])
  {
    var i := bytesRead;
    while i > at
      invariant at <= i <= bytesRead
      invariant forall j {:trigger buffer[j]} :: 0 <= j < buffer.Length ==>
        buffer[j] == if i < j <= bytesRead then old(buffer[j - 1]) else old(buffer[j])
    {
      buffer[i] := buffer[i - 1];
      i := i - 1;
    }
    buffer[at] := ch;
  }

  lemma Opened(b: seq<Byte>, b': seq<Byte>, at: nat, n: nat, ch: Byte)
    requires at <= n < |b| == |b'|
    requires forall j {:trigger b'[j]} :: 0 <= j < |b| ==>
      b'[j] == if j == at then ch else if at < j <= n then b[j - 1] else b[j]
    ensures b'[..n + 1] == b[..at] + [ch] + b[at..n]
  {
  }

  lemma Inserted(was: seq<Byte>, now: seq<Byte>, at: nat, n: nat, ch: Letter, line: Line)
    requires Holds(was, n, at, line) && n < |now|
    requires now[..n + 1] == was[..at] + [ch] + was[at..n]
    ensures Holds(now, n + 1, at + 1, Apply(line, Char(ch))) && now[at..n + 1] == [ch] + line.right
  {
    Halves(was, n, line.left, line.right);
    assert line.left + ([ch] + line.right) == line.left + [ch] + line.right;
    Halves(now, n + 1, line.left, [ch] + line.right);
  }

  /** The buffer after a character has been inserted. */
  method InsertChar(buffer: array<Byte>, at: nat, bytesRead: nat, ch: Letter, ghost line: Line)
    requires Holds(buffer[..], bytesRead, at, line) && bytesRead < buffer.Length
    modifies buffer
    ensures Holds(buffer[..], bytesRead + 1, at + 1, Apply(line, Char(ch)))
    ensures buffer[at..bytesRead + 1] == [ch] + line.right
  {
    ghost var was := buffer[..];
    Halves(was, bytesRead, line.left, line.right);
    OpenGap(buffer, at, bytesRead, ch);
    Opened(was, buffer[..], at, bytesRead, ch);
    Inserted(was, buffer[..], at, bytesRead, ch, line);
  }

  /** The end of both cases that remove a character (147-153, 164-166). */
  method EchoRemoval(dev: Port, buffer: array<Byte>, cursorPosition: nat, bytesRead: nat)
    requires cursorPosition <= bytesRead <= buffer.Length
    modifies dev`output
    ensures dev.output == old(dev.output) +
      (buffer[cursorPosition..bytesRead] + [SPACE] + Lefts(bytesRead - cursorPosition + 1))
  {
    RedrawFromPosition(dev, buffer, cursorPosition, bytesRead);
    dev.Out([SPACE]);
    MoveCursorLeft(dev, bytesRead - cursorPosition + 1);
  }

  lemma BackspaceIs(line: Line)
    ensures line.left == [] ==> Apply(line, Backspace) == line && Echo(line, Backspace) == []
    ensures line.left != [] ==> Apply(line, Backspace).right == line.right
    ensures line.left != [] ==> Echo(line, Backspace) == Lefts(1) + (line.right + [SPACE] + Lefts(|line.right| + 1))
  {
    var more := Lefts(|line.right| + 1);
    assert Lefts(1) + line.right + [SPACE] + more == Lefts(1) + (line.right + [SPACE] + more);
  }

  lemma BackspaceText(line: Line)
    requires line.left != []
    ensures var c, t, line' := |line.left|, line.Text(), Apply(line, Backspace);
      |line'.left| == c - 1 && line'.Text() == t[..c - 1] + t[c..]
  {
    EditsAtCursor(line, Backspace);
  }

  /** The echo of case 0x7F (146-153). */
  method EchoBackspace(dev: Port, buffer: array<Byte>, cursorPosition: nat, bytesRead: nat)
    requires cursorPosition <= bytesRead <= buffer.Length
    modifies dev`output
    ensures dev.output == old(dev.output) +
      (Lefts(1) + (buffer[cursorPosition..bytesRead] + [SPACE] + Lefts(bytesRead - cursorPosition + 1)))
  {
    hide Lefts;
    MoveCursorLeft(dev, 1);
    EchoRemoval(dev, buffer, cursorPosition, bytesRead);
  }

  /** Case 0x7F (134-155). */
  method HandleBackspace(dev: Port, buffer: array<Byte>, bytesRead: nat, cursorPosition: nat, ghost line: Line)
    returns (bytesRead': nat, cursorPosition': nat)
    requires Holds(buffer[..], bytesRead, cursorPosition, line)
    modifies dev`output, buffer
    ensures Holds(buffer[..], bytesRead', cursorPosition', Apply(line, Backspace))
    ensures dev.output == old(dev.output) + Echo(line, Backspace)
  {
    hide Apply;
    hide Echo;
    hide Lefts;
    BackspaceIs(line);
    bytesRead', cursorPosition' := bytesRead, cursorPosition;
    if cursorPosition > 0 {
      BackspaceText(line);
      RemoveChar(buffer, cursorPosition - 1, bytesRead, line, Apply(line, Backspace));
      bytesRead', cursorPosition' := bytesRead - 1, cursorPosition - 1;
      EchoBackspace(dev, buffer, cursorPosition', bytesRead');
    }
  }

  /** Case 0x7E (157-168). */
  method HandleDelete(dev: Port, buffer: array<Byte>, bytesRead: nat, cursorPosition: nat, ghost line: Line)
    returns (bytesRead': nat)
    requires Holds(buffer[..], bytesRead, cursorPosition, line)
    modifies dev`output, buffer
    ensures Holds(buffer[..], bytesRead', cursorPosition, Apply(line, Delete))
    ensures dev.output == old(dev.output) + Echo(line, Delete)
  {
    bytesRead' := bytesRead;
    if cursorPosition < bytesRead {
      EditsAtCursor(line, Delete);
      RemoveChar(buffer, cursorPosition, bytesRead, line, Apply(line, Delete));
      bytesRead' := bytesRead - 1;
      EchoRemoval(dev, buffer, cursorPosition, bytesRead');
    }
  }

  /** The default case for a printable character (173-187). */
  method HandleChar(dev: Port, buffer: array<Byte>, bytesRead: nat, cursorPosition: nat, ch: Letter, ghost line: Line)
    returns (bytesRead': nat, cursorPosition': nat)
    requires Holds(buffer[..], bytesRead, cursorPosition, line) && bytesRead < buffer.Length
    modifies dev`output, buffer
    ensures Holds(buffer[..], bytesRead', cursorPosition', Apply(line, Char(ch)))
    ensures dev.output == old(dev.output) + Echo(line, Char(ch))
  {
    InsertChar(buffer, cursorPosition, bytesRead, ch, line);
    bytesRead', cursorPosition' := bytesRead + 1, cursorPosition + 1;
    RedrawFromPosition(dev, buffer, cursorPosition' - 1, bytesRead');
    MoveCursorLeft(dev, bytesRead' - cursorPosition');
  }

  /** The arrow keys (97-124); the other sequences change nothing. */
  method HandleEscape(dev: Port, bytesRead: nat, cursorPosition: nat, next1: Byte, next2: Byte, ghost line: Line)
    returns (cursorPosition': nat)
    requires bytesRead == |line.Text()| && cursorPosition == |line.left|
    modifies dev`output
    ensures var key :=
        if next1 == BRACKET && next2 == CUF then Right
        else if next1 == BRACKET && next2 == CUB then Left
        else Ignored;
      && cursorPosition' == |Apply(line, key).left| && Apply(line, key).Text() == line.Text()
      && dev.output == old(dev.output) + Echo(line, key)
  {
    cursorPosition' := cursorPosition;
    EditsAtCursor(line, Right);
    EditsAtCursor(line, Left);
    if next1 == BRACKET {
      if next2 == CUF {
        if cursorPosition < bytesRead {
          dev.Out([ESC, BRACKET, CUF]);
          cursorPosition' := cursorPosition + 1;
        }
      } else if next2 == CUB {
        if cursorPosition > 0 {
          dev.Out([ESC, BRACKET, CUB]);
          cursorPosition' := cursorPosition - 1;
        }
      }
    }
  }

  // ------------------------------------------------------------ serial_poll

  datatype Progress = Waits | Stops | GoesOn

  lemma DecodedMeans(input: seq<Byte>, pos: nat)
    requires pos <= |input|
    ensures Decode(input, pos).Some? ==>
      var (key, n) := Decode(input, pos).value; pos + n <= |input| && Means(input[pos..pos + n], key)
  {
    if Decode(input, pos).Some? {
      DecodeIff(input, pos, Decode(input, pos).value.0, Decode(input, pos).value.1);
    }
  }

  /** One round of the loop of 86-193. */
  method PollKey(dev: Port, buffer: array<Byte>, bytesRead: nat, cursorPosition: nat, ghost line: Line)
    returns (p: Progress, bytesRead': nat, cursorPosition': nat)
    requires dev.pos <= |dev.input| && bytesRead < buffer.Length && Holds(buffer[..], bytesRead, cursorPosition, line)
    modifies dev`pos, dev`output, buffer
    ensures p.Waits? <==> Decode(dev.input, old(dev.pos)) == None
    ensures p.Waits? ==> bytesRead' == bytesRead && buffer[..] == old(buffer[..]) && dev.output == old(dev.output)
    ensures !p.Waits? ==>
      var (key, n) := Decode(dev.input, old(dev.pos)).value;
      && dev.pos == old(dev.pos) + n <= |dev.input| && Means(dev.input[old(dev.pos)..dev.pos], key)
      && dev.output == old(dev.output) + Echo(line, key)
      && (p.Stops? <==> Ends(key))
      && (p.Stops? ==>
            bytesRead' <= buffer.Length && buffer[..bytesRead'] == line.Text() + if key.Return? then [LF] else [])
      && (p.GoesOn? ==> Holds(buffer[..], bytesRead', cursorPosition', Apply(line, key)))
  {
    hide Means;
    DecodedMeans(dev.input, dev.pos);
    p, bytesRead', cursorPosition' := GoesOn, bytesRead, cursorPosition;
    var b := dev.In();
    if b == None {
      return Waits, bytesRead', cursorPosition';
    }
    var ch := b.value;
    if ch == ESC {
      var next1 := dev.In();
      var next2 := dev.In();
      if next2 == None {
        return Waits, bytesRead', cursorPosition';
      }
      cursorPosition' := HandleEscape(dev, bytesRead, cursorPosition, next1.value, next2.value, line);
    } else if ch == CR {
      buffer[bytesRead] := LF;
      bytesRead' := bytesRead + 1;
      dev.Out([LF]);
      p := Stops;
    } else if ch == 0x7F {
      bytesRead', cursorPosition' := HandleBackspace(dev, buffer, bytesRead, cursorPosition, line);
    } else if ch == 0x7E {
      bytesRead' := HandleDelete(dev, buffer, bytesRead, cursorPosition, line);
    } else if 0x20 <= ch <= 0x7E {
      bytesRead', cursorPosition' := HandleChar(dev, buffer, bytesRead, cursorPosition, ch, line);
    } else if ch == LF {
      p := Stops;
    }
  }

  /** What a session on the empty line comes to: why and where it stops, its text and its output. */
  datatype Outcome = Outcome(why: End, readTo: nat, text: seq<Byte>, sent: seq<Byte>)

  /** With pos bytes read, output sent and the line as it is, the session will come to o. */
  ghost predicate Pending(input: seq<Byte>, pos: nat, output: seq<Byte>, line: Line, cap: nat, o: Outcome) {
    pos <= |input| &&
    var rest := Poll(input, pos, line, cap);
    && rest.Why() == o.why && rest.ReadTo() == o.readTo
    && Polled(line, rest) == o.text && output + Sent(line, rest) == o.sent
  }

  lemma PendingFull(input: seq<Byte>, pos: nat, output: seq<Byte>, line: Line, cap: nat, o: Outcome)
    requires Pending(input, pos, output, line, cap, o) && |line.Text()| >= cap
    ensures o == Outcome(Full, pos, line.Text(), output)
  {
  }

  /** What the key at the front of the input means for the outcome. */
  ghost predicate Next(input: seq<Byte>, pos: nat, output: seq<Byte>, line: Line, cap: nat, o: Outcome) {
    pos <= |input| &&
    match Decode(input, pos)
    case None => o == Outcome(Starved, pos, line.Text(), output)
    case Some((key, n)) =>
      if Ends(key) then
        o == Outcome(Ended(key), pos + n, line.Text() + if key.Return? then [LF] else [], output + Echo(line, key))
      else
        |Apply(line, key).Text()| <= cap && Pending(input, pos + n, output + Echo(line, key), Apply(line, key), cap, o)
  }

  lemma PendingEnds(input: seq<Byte>, pos: nat, output: seq<Byte>, line: Line, cap: nat, o: Outcome, key: Key, n: nat)
    requires Pending(input, pos, output, line, cap, o) && |line.Text()| < cap
    requires Decode(input, pos) == Some((key, n)) && Ends(key)
    ensures o == Outcome(Ended(key), pos + n, line.Text() + if key.Return? then [LF] else [], output + Echo(line, key))
  {
    assert Poll(input, pos, line, cap) == Stop(Ended(key), pos + n);
  }

  lemma PendingStep(input: seq<Byte>, pos: nat, output: seq<Byte>, line: Line, cap: nat, o: Outcome, key: Key, n: nat)
    requires Pending(input, pos, output, line, cap, o) && |line.Text()| < cap
    requires Decode(input, pos) == Some((key, n)) && !Ends(key)
    ensures Pending(input, pos + n, output + Echo(line, key), Apply(line, key), cap, o)
  {
    hide Apply;
    hide Echo;
    hide Decode;
    var rest := Poll(input, pos + n, Apply(line, key), cap);
    assert Poll(input, pos, line, cap) == Act(key, rest);
    var e, more := Echo(line, key), Sent(Apply(line, key), rest);
    assert output + (e + more) == output + e + more;
  }

  lemma PendingStarved(input: seq<Byte>, pos: nat, output: seq<Byte>, line: Line, cap: nat, o: Outcome)
    requires Pending(input, pos, output, line, cap, o) && |line.Text()| < cap && Decode(input, pos).None?
    ensures o == Outcome(Starved, pos, line.Text(), output)
  {
    assert Poll(input, pos, line, cap) == Stop(Starved, pos);
  }

  lemma InBounds(input: seq<Byte>, pos: nat, output: seq<Byte>, line: Line, cap: nat, o: Outcome)
    requires Pending(input, pos, output, line, cap, o)
    ensures pos <= |input|
  {
  }

  lemma PendingNext(input: seq<Byte>, pos: nat, output: seq<Byte>, line: Line, cap: nat, o: Outcome)
    requires Pending(input, pos, output, line, cap, o) && |line.Text()| < cap
    ensures Next(input, pos, output, line, cap, o)
  {
    hide Pending;
    hide Echo;
    hide Apply;
    InBounds(input, pos, output, line, cap, o);
    if Decode(input, pos).Some? {
      var (key, n) := Decode(input, pos).value;
      EditsAtCursor(line, key);
      if Ends(key) {
        PendingEnds(input, pos, output, line, cap, o, key, n);
      } else {
        PendingStep(input, pos, output, line, cap, o, key, n);
      }
    } else {
      PendingStarved(input, pos, output, line, cap, o);
    }
  }

  /** PollKey in terms of the session it is part of. */
  method PollRound(dev: Port, buffer: array<Byte>, bytesRead: nat, cursorPosition: nat,
                   ghost line: Line, ghost cap: nat, ghost o: Outcome)
    returns (p: Progress, bytesRead': nat, cursorPosition': nat, ghost line': Line)
    requires bytesRead < cap <= buffer.Length && dev.pos <= |dev.input|
    requires Holds(buffer[..], bytesRead, cursorPosition, line)
    requires Next(dev.input, dev.pos, dev.output, line, cap, o)
    modifies dev`pos, dev`output, buffer
    ensures p.GoesOn? ==> Holds(buffer[..], bytesRead', cursorPosition', line') && |line'.Text()| <= cap
    ensures p.GoesOn? ==> dev.pos > old(dev.pos) && Pending(dev.input, dev.pos, dev.output, line', cap, o)
    ensures !p.GoesOn? ==> dev.output == o.sent && bytesRead' == |o.text| <= cap && buffer[..bytesRead'] == o.text
    ensures p.Waits? ==> o.why == Starved
    ensures p.Stops? ==> o.why.Ended? && dev.pos == o.readTo
  {
    ghost var pos := dev.pos;
    p, bytesRead', cursorPosition' := PollKey(dev, buffer, bytesRead, cursorPosition, line);
    line' := if p.GoesOn? then Apply(line, Decode(dev.input, pos).value.0) else line;
  }

  /** The loop of 86-193; waits when it needs input that does not arrive. */
  method PollLoop(dev: Port, buffer: array<Byte>, cap: nat, ghost o: Outcome) returns (waits: bool, bytesRead: nat)
    requires cap <= buffer.Length
    requires Pending(dev.input, dev.pos, dev.output, EMPTY, cap, o)
    modifies dev`pos, dev`output, buffer
    ensures dev.output == o.sent && bytesRead == |o.text| <= cap && buffer[..bytesRead] == o.text
    ensures (waits <==> o.why == Starved) && (!waits ==> dev.pos == o.readTo)
  {
    bytesRead := 0;
    var cursorPosition := 0;
    ghost var line := EMPTY;
    while bytesRead < cap
      invariant bytesRead <= cap && Holds(buffer[..], bytesRead, cursorPosition, line)
      invariant Pending(dev.input, dev.pos, dev.output, line, cap, o)
      decreases |dev.input| - dev.pos
    {
      var p;
      PendingNext(dev.input, dev.pos, dev.output, line, cap, o);
      p, bytesRead, cursorPosition, line := PollRound(dev, buffer, bytesRead, cursorPosition, line, cap, o);
      if !p.GoesOn? {
        return p.Waits?, bytesRead;
      }
    }
    PendingFull(dev.input, dev.pos, dev.output, line, cap, o);
    waits := false;
  }

  /** serial_poll (81-197); None while it waits for input that does not arrive. s is the session. */
  method SerialPoll(dev: Port, buffer: array<Byte>, len: nat) returns (r: Option<nat>, ghost s: Session)
    requires 1 <= len <= buffer.Length && dev.pos <= |dev.input|
    modifies dev`pos, dev`output, buffer
    ensures s == Poll(dev.input, old(dev.pos), EMPTY, len - 1) && Reads(dev.input, old(dev.pos), EMPTY, len - 1, s)
    ensures dev.output == old(dev.output) + Sent(EMPTY, s)
    ensures |Polled(EMPTY, s)| < len && buffer[..|Polled(EMPTY, s)|] == Polled(EMPTY, s)
    ensures r == if s.Why() == Starved then None else Some(|Polled(EMPTY, s)|)
    ensures r.Some? ==> buffer[r.value] == 0 && dev.pos == s.ReadTo()
  {
    s := Poll(dev.input, dev.pos, EMPTY, len - 1);
    PollReads(dev.input, dev.pos, EMPTY, len - 1, s);
    ghost var o := Outcome(s.Why(), s.ReadTo(), Polled(EMPTY, s), dev.output + Sent(EMPTY, s));
    var waits, bytesRead := PollLoop(dev, buffer, len - 1, o);
    if waits {
      return None, s;
    }
    buffer[bytesRead] := 0;
    r := Some(bytesRead);
  }

  // ------------------------------------------------------------ what the caller and the user see

  /** The bytes polled are letters, but for one line feed at the end, which is there exactly when Return
      ended the line. */
  lemma PolledBytes(s: Session)
    ensures var text := Polled(EMPTY, s);
      && (s.Why() == Ended(Return) <==> text != [] && text[|text| - 1] == LF)
      && forall i :: 0 <= i < |text| ==> 0x20 <= text[i] <= 0x7D || (text[i] == LF && i == |text| - 1)
  {
    PolledIsFinal(EMPTY, s);
    var letters: seq<Letter> := Final(EMPTY, s).Text();
    assert forall i :: 0 <= i < |letters| ==> Polled(EMPTY, s)[i] == letters[i];
  }

  /** The buffer serial_poll fills holds the polled text as a C string, so strlen of it is the count
      serial_poll returns. */
  lemma PolledString(s: Session, buffer: seq<Byte>)
    requires var text := Polled(EMPTY, s); |text| < |buffer| && buffer[..|text|] == text && buffer[|text|] == 0
    ensures 0 in buffer && Content(buffer) == Polled(EMPTY, s)
  {
    var text := Polled(EMPTY, s);
    PolledBytes(s);
    ContentAt(buffer, |text|);
  }

  /** Whatever bytes have arrived on a row that is blank from the prompt on, the terminal shows the line
      being edited, with its column at the cursor; Return then leaves the row. */
  lemma PolledScreen(prompt: Terminal, input: seq<Byte>, pos: nat, cap: nat)
    requires pos <= |input| && prompt.parser == Ground && !prompt.left
    requires forall x {:trigger prompt.row(x)} :: prompt.col <= x ==> prompt.row(x) == SPACE
    ensures var s := Poll(input, pos, EMPTY, cap); var t := FeedAll(prompt, Sent(EMPTY, s));
      t.left == (s.Why() == Ended(Return)) && Shows(t.(left := false), prompt, Final(EMPTY, s))
  {
    ScreenFollowsLine(prompt, prompt, EMPTY, Poll(input, pos, EMPTY, cap));
  }
}
