/** user/interface.c: set_pcb_priority_command, from its argument string to the queues. */
module PriorityCommand {
  import opened Common
  import opened CStrings
  import opened Scheduler
  import opened Steps
  import opened Kernel
  import opened Splitting
  import opened Tokens
  import opened Numbers

  const BLANKS: seq<Byte> := [0x20, 0x09, 0x0A, 0]  // " \t\n"
  const BLANK: CStr := [0x20, 0x09, 0x0A]

  lemma BlanksAre()
    ensures 0 in BLANKS && Content(BLANKS) == BLANK
  {
  }

  /** The first two words of the string at pos; None when there are fewer. */
  ghost function Words(b: seq<Byte>, pos: nat): (w: Option<((nat, nat), (nat, nat))>)
    requires StringAt(b, pos)
    ensures w.Some? ==> pos <= w.value.0.0 < w.value.0.1 < w.value.1.0 < w.value.1.1 <= End(b, pos)
  {
    var n := End(b, pos);
    var m := Marks(b, n, BLANK);
    var p := FirstPiece(m, pos);
    if p.0 == n || p.1 == n then None else
      var q := FirstPiece(m, p.1 + 1);
      if q.0 == n then None else Some((p, q))
  }

  ghost function Text(b: seq<Byte>, pos: nat, p: (nat, nat)): CStr
    requires StringAt(b, pos) && pos <= p.0 <= p.1 <= End(b, pos)
  {
    assert forall i :: p.0 <= i < p.1 ==> b[i] != 0 by {
      forall i | p.0 <= i < p.1 ensures b[i] != 0 {
        StringFrom(b, pos, i);
      }
    }
    b[p.0..p.1]
  }

  /** What the argument string asks for: a name of at most 8 characters and a priority. Further words are
      ignored. */
  ghost function Request(b: seq<Byte>, pos: nat): Option<(CStr, CStr)>
    requires StringAt(b, pos)
  {
    var w := Words(b, pos);
    if w == None || w.value.0.1 - w.value.0.0 > 8 then None
    else Some((Text(b, pos, w.value.0), Text(b, pos, w.value.1)))
  }

  /** Words i to j and k to l are the first two of the string from pos on whose NUL is at n. */
  ghost predicate TwoWords(b: seq<Byte>, pos: nat, n: nat, i: nat, j: nat, k: nat, l: nat) {
    FirstWord(b, pos, n, [0x20, 0x09, 0x0A], i, j) && j < n && FirstWord(b, j + 1, n, [0x20, 0x09, 0x0A], k, l)
  }

  lemma WordsIff(b: seq<Byte>, pos: nat, i: nat, j: nat, k: nat, l: nat)
    requires StringAt(b, pos)
    ensures Words(b, pos) == Some(((i, j), (k, l))) <==> TwoWords(b, pos, End(b, pos), i, j, k, l)
  {
    var n := End(b, pos);
    FirstPieceIff(b, pos, n, BLANK, i, j);
    if j < n {
      FirstPieceIff(b, j + 1, n, BLANK, k, l);
    }
  }

  /** The string asks for a name and a number exactly when they are its first two words and the name has at
      most 8 characters; it is refused exactly when there are no two words or the first has more. */
  lemma RequestIff(b: seq<Byte>, pos: nat, i: nat, j: nat, k: nat, l: nat)
    requires StringAt(b, pos)
    ensures TwoWords(b, pos, End(b, pos), i, j, k, l) ==>
      Request(b, pos) == if j - i > 8 then None else Some((b[i..j], b[k..l]))
    ensures Request(b, pos).Some? ==> Words(b, pos).Some?
    ensures Words(b, pos).Some? <==>
      exists i', j', k', l' :: TwoWords(b, pos, End(b, pos), i', j', k', l')
  {
    WordsIff(b, pos, i, j, k, l);
    if w: nat, x: nat, y: nat, z: nat :| TwoWords(b, pos, End(b, pos), w, x, y, z) {
      WordsIff(b, pos, w, x, y, z);
    }
    if Words(b, pos).Some? {
      var ((w, x), (y, z)) := Words(b, pos).value;
      WordsIff(b, pos, w, x, y, z);
    }
  }

  /** The words are the first two tokens. */
  lemma WordsFound(b: seq<Byte>, pos: nat, ps: seq<(nat, nat)>)
    requires StringAt(b, pos) && |ps| <= 2
    requires var m := Marks(b, End(b, pos), BLANK); Found(m, pos, ps, |ps|) && (|ps| < 2 ==> AllFound(m, pos, ps))
    ensures Words(b, pos) == if |ps| < 2 then None else Some((ps[0], ps[1]))
  {
    var m := Marks(b, End(b, pos), BLANK);
    if ps != [] {
      assert IsToken(m, pos, ps, 0);
    }
    if |ps| == 2 {
      assert IsToken(m, pos, ps, 1);
    }
  }

  /** A name of 1 to 8 characters, blanks and a numeral make a request for that name and number, whatever
      blanks stand before it and whatever words follow: too many words are not refused. */
  lemma TypedRequest(b: seq<Byte>, pos: nat, i: nat, j: nat, k: nat, l: nat, x: nat)
    requires StringAt(b, pos)
    requires var m := Marks(b, End(b, pos), BLANK);
      RunAt(m, pos, i, j) && j < |m| && RunAt(m, j + 1, k, l) && j - i <= 8
    requires b[k..l] == Decimal(x)
    ensures Request(b, pos) == Some((b[i..j], Decimal(x))) && Denotes(Decimal(x)) == x
  {
    var m := Marks(b, End(b, pos), BLANK);
    FirstPieceIs(m, pos, i, j);
    FirstPieceIs(m, j + 1, k, l);
    NumeralDenotes(Decimal(x), 0, false, x);
  }

  lemma NothingYet(buf: array<Byte>, b: seq<Byte>, m: seq<bool>, pos: nat)
    requires StringAt(b, pos) && m == Marks(b, End(b, pos), BLANK)
    ensures |m| < |b| && SoFar(b, b, m, pos, []) && Kept(buf, From(pos, [], 0), |m|) == At(buf, pos)
  {
  }

  /** The loop of 727-737: at most two words are kept, and one more is looked for. */
  method GetTokens(tok: Tokeniser, buf: array<Byte>, pos: nat, ghost b: seq<Byte>, ghost m: seq<bool>)
    returns (tokens: seq<nat>, token: Ptr, ghost ps: seq<(nat, nat)>)
    requires StringAt(buf[..], pos) && b == buf[..] && m == Marks(b, End(b, pos), BLANK)
    modifies tok, buf
    ensures Returned(token, tok.tokTmp, buf, buf[..], b, m, pos, ps) && (token != Null ==> |ps| == 2)
    ensures |tokens| == |ps| <= 2 && forall i :: 0 <= i < |ps| ==> tokens[i] == ps[i].0
  {
    hide Marks;
    hide End;
    hide FirstPiece;
    hide SoFar;
    BlanksAre();
    NothingYet(buf, b, m, pos);
    ps, tokens := [], [];
    token := OneMore(tok, At(buf, pos), buf, BLANKS, b, m, pos, ps);
    while token != Null && |tokens| < 2
      invariant Returned(token, tok.tokTmp, buf, buf[..], b, m, pos, ps)
      invariant |tokens| == |ps| <= 2 && forall i :: 0 <= i < |ps| ==> tokens[i] == ps[i].0
      decreases token.At?, 2 - |tokens|
    {
      tokens := tokens + [token.pos];
      ps := ps + [FirstPiece(m, From(pos, ps, |ps|))];
      token := OneMore(tok, Null, buf, BLANKS, b, m, pos, ps);
    }
  }

  /** The pointer at holds the string text. */
  ghost predicate Spells(b: seq<Byte>, at: nat, text: CStr) {
    at < |b| && 0 in b[at..] && Content(b[at..]) == text
  }

  /** The same in terms of the argument string. */
  method TwoTokens(tok: Tokeniser, buf: array<Byte>, pos: nat) returns (tokens: seq<nat>)
    requires StringAt(buf[..], pos)
    modifies tok, buf
    ensures var b := old(buf[..]); var w := Words(b, pos);
      && (|tokens| == 2 <==> w.Some?)
      && (w.Some? ==>
            && Spells(buf[..], tokens[0], Text(b, pos, w.value.0))
            && Spells(buf[..], tokens[1], Text(b, pos, w.value.1)))
  {
    ghost var b := buf[..];
    ghost var m := Marks(b, End(b, pos), BLANK);
    var token;
    ghost var ps;
    tokens, token, ps := GetTokens(tok, buf, pos, b, m);
    ReturnedFound(token, tok.tokTmp, buf, buf[..], b, m, pos, ps);
    WordsFound(b, pos, ps);
    if |tokens| == 2 {
      ReturnedString(token, tok.tokTmp, buf, buf[..], b, m, pos, ps, 0);
      ReturnedString(token, tok.tokTmp, buf, buf[..], b, m, pos, ps, 1);
    }
  }

  /** 720-755: the name and the new priority, None when the command refuses its arguments. */
  method ParseRequest(tok: Tokeniser, args: Ptr) returns (r: Option<(CStr, int)>)
    requires args.At? ==> StringAt(args.buf[..], args.pos)
    requires args.At? && Request(args.buf[..], args.pos).Some? ==>
      Magnitude(Request(args.buf[..], args.pos).value.1) <= INT_MAX
    modifies tok, if args.At? then {args.buf} else {}
    ensures args == Null ==> r == None
    ensures args.At? ==>
      var asked := old(Request(args.buf[..], args.pos));
      r == if asked == None then None else Some((asked.value.0, Denotes(asked.value.1)))
  {
    if args == Null {
      return None;
    }
    var buf := args.buf;
    var tokens := TwoTokens(tok, buf, args.pos);
    if |tokens| != 2 {
      return None;
    }
    var len := StrLen(buf[..][tokens[0]..]);
    if len > 8 {
      return None;
    }
    var newPriority := AtoI(buf[..][tokens[1]..]);
    return Some((Content(buf[..][tokens[0]..]), newPriority));
  }

  /** set_pcb_priority_command (718-774); the result is what pcb_set_priority returned, None when it was not
      called. */
  method SetPcbPriorityCommand(m: Machine, tok: Tokeniser, args: Ptr) returns (r: Option<int>)
    requires m.Linked() && (args.At? ==> StringAt(args.buf[..], args.pos))
    requires args.At? && Request(args.buf[..], args.pos).Some? ==>
      Magnitude(Request(args.buf[..], args.pos).value.1) <= INT_MAX
    modifies tok, if args.At? then {args.buf} else {}
    modifies m`readyQ, m`blockedQ, m`suspReadyQ, m`suspBlockedQ, m`view
    modifies m.readyQ, m.blockedQ, m.suspReadyQ, m.suspBlockedQ, m.view.attr.Keys
    ensures m.Linked()
    ensures var asked := if args == Null then None else old(Request(args.buf[..], args.pos));
      if asked == None then r == None && m.view == old(m.view)
      else
        var (name, x) := (asked.value.0, Denotes(asked.value.1));
        r == Some(PriorityCode(old(m.view), name, x)) && m.view == SetPriority(old(m.view), name, x).value
  {
    var asked := ParseRequest(tok, args);
    if asked == None {
      return None;
    }
    var result := m.PcbSetPriority(asked.value.0, asked.value.1);
    return Some(result);
  }
}
