/**
 kernel/sys_call_isr.s, struct context (include/mpx/sys_call.h:6-30) and load_pcb (user/pcb.c:479-502)
 on byte-addressed memory.
 */
module ContextSwitch {
  import opened Common

  type Memory = int -> Byte
  type Selector = x: int | 0 <= x < 0x1_0000

  /** The registers a frame holds. */
  datatype Regs = Regs(
    gs: Selector, fs: Selector, es: Selector, ds: Selector, ss: Selector,
    edi: Word, esi: Word, ebp: Word, ebx: Word, edx: Word, ecx: Word, eax: Word,
    eip: Word, cs: Selector, eflags: Word)

  /** The words of struct context, in the order of its fields; esp is the one the registers do not give. */
  function Frame(r: Regs, esp: Word): seq<Word> {
    [r.gs, r.fs, r.es, r.ds, r.ss, r.edi, r.esi, esp, r.ebp, r.ebx, r.edx, r.ecx, r.eax, r.eip, r.cs, r.eflags]
  }

  const FRAME_WORDS := 16
  const EAX := 12  // position of eax in struct context

  // ------------------------------------------------------------ little-endian words in memory

  function Load32(m: Memory, a: int): Word {
    m(a) + 0x100 * m(a + 1) + 0x1_0000 * m(a + 2) + 0x100_0000 * m(a + 3)
  }

  function ByteOf(w: Word, i: int): Byte {
    if i == 0 then w % 0x100
    else if i == 1 then w / 0x100 % 0x100
    else if i == 2 then w / 0x1_0000 % 0x100
    else w / 0x100_0000 % 0x100
  }

  function Store32(m: Memory, a: int, w: Word): Memory {
    x => if a <= x < a + 4 then ByteOf(w, x - a) else m(x)
  }

  lemma BytesMakeWord(w: Word)
    ensures ByteOf(w, 0) + 0x100 * ByteOf(w, 1) + 0x1_0000 * ByteOf(w, 2) + 0x100_0000 * ByteOf(w, 3) == w
  {
    var a := w / 0x100;
    var b := a / 0x100;
    assert w / 0x1_0000 == b;
    assert w / 0x100_0000 == b / 0x100 < 0x100;
  }

  lemma LoadStore(m: Memory, a: int, w: Word, b: int)
    ensures Load32(Store32(m, a, w), a) == w
    ensures b + 4 <= a || a + 4 <= b ==> Load32(Store32(m, a, w), b) == Load32(m, b)
  {
    BytesMakeWord(w);
  }

  /** The lowest byte of a word is at the lowest address. */
  lemma LittleEndian(m: Memory, a: int, w: Word)
    ensures var m' := Store32(m, a, w);
      && m'(a) == w % 0x100 && m'(a + 1) == w / 0x100 % 0x100 && m'(a + 2) == w / 0x1_0000 % 0x100
      && m'(a + 3) == w / 0x100_0000 && forall x :: x < a || a + 4 <= x ==> m'(x) == m(x)
  {
    forall i | 0 <= i < 4 ensures Store32(m, a, w)(a + i) == ByteOf(w, i) {
      assert a + i - a == i;
    }
    assert Store32(m, a, w)(a + 0) == ByteOf(w, 0) && Store32(m, a, w)(a + 1) == ByteOf(w, 1);
    assert Store32(m, a, w)(a + 2) == ByteOf(w, 2) && Store32(m, a, w)(a + 3) == ByteOf(w, 3);
  }

  /** n consecutive words from address a. */
  function Words(m: Memory, a: int, n: nat): (ws: seq<Word>)
    ensures |ws| == n
  {
    seq(n, i requires 0 <= i < n => Load32(m, a + 4 * i))
  }

  lemma WordAt(m: Memory, a: int, n: nat, i: nat)
    requires i < n
    ensures Words(m, a, n)[i] == Load32(m, a + 4 * i)
  {
  }

  lemma WordsAfterPush(m: Memory, a: int, n: nat, w: Word)
    ensures Words(Store32(m, a - 4, w), a - 4, n + 1) == [w] + Words(m, a, n)
  {
    var m' := Store32(m, a - 4, w);
    forall i | 0 <= i < n + 1 ensures Words(m', a - 4, n + 1)[i] == ([w] + Words(m, a, n))[i] {
      LoadStore(m, a - 4, w, a - 4 + 4 * i);
    }
  }

  lemma WordsAfterStore(m: Memory, a: int, n: nat, i: nat, w: Word)
    requires i < n
    ensures Words(Store32(m, a + 4 * i, w), a, n) == Words(m, a, n)[i := w]
  {
    var m' := Store32(m, a + 4 * i, w);
    forall j | 0 <= j < n ensures Words(m', a, n)[j] == Words(m, a, n)[i := w][j] {
      LoadStore(m, a + 4 * i, w, a + 4 * j);
    }
  }

  /** What int 0x60 and the pushes of sys_call_isr leave behind, from stack pointer e on: the sixteen words
      from e - 64 are the fields of struct context in order, with the stack pointer of pusha's moment in the
      esp field; the word below them is their address, the argument of sys_call; nothing else changes. */
  ghost predicate Pushed(m: Memory, m': Memory, r: Regs, e: int)
    requires 68 <= e < 0x1_0000_0000
  {
    && Words(m', e - 64, FRAME_WORDS) == Frame(r, e - 32)
    && Load32(m', e - 68) == e - 64
    && forall a :: a >= e || a < e - 68 ==> m'(a) == m(a)
  }

  /** Where struct context has its fields (include/mpx/sys_call.h:6-30), e being the stack pointer before
      int 0x60. */
  lemma SavedFields(m: Memory, m': Memory, r: Regs, e: int)
    requires 68 <= e < 0x1_0000_0000 && Pushed(m, m', r, e)
    ensures var c := e - 64;
      && Load32(m', c) == r.gs && Load32(m', c + 4) == r.fs && Load32(m', c + 8) == r.es
      && Load32(m', c + 12) == r.ds && Load32(m', c + 16) == r.ss && Load32(m', c + 20) == r.edi
      && Load32(m', c + 24) == r.esi && Load32(m', c + 28) == e - 32 && Load32(m', c + 32) == r.ebp
      && Load32(m', c + 36) == r.ebx && Load32(m', c + 40) == r.edx && Load32(m', c + 44) == r.ecx
      && Load32(m', c + 48) == r.eax && Load32(m', c + 52) == r.eip && Load32(m', c + 56) == r.cs
      && Load32(m', c + 60) == r.eflags
  {
    hide Load32;
    hide Words;
    var c := e - 64;
    WordAt(m', c, FRAME_WORDS, 0); WordAt(m', c, FRAME_WORDS, 1);
    WordAt(m', c, FRAME_WORDS, 2); WordAt(m', c, FRAME_WORDS, 3);
    WordAt(m', c, FRAME_WORDS, 4); WordAt(m', c, FRAME_WORDS, 5);
    WordAt(m', c, FRAME_WORDS, 6); WordAt(m', c, FRAME_WORDS, 7);
    WordAt(m', c, FRAME_WORDS, 8); WordAt(m', c, FRAME_WORDS, 9);
    WordAt(m', c, FRAME_WORDS, 10); WordAt(m', c, FRAME_WORDS, 11);
    WordAt(m', c, FRAME_WORDS, 12); WordAt(m', c, FRAME_WORDS, 13);
    WordAt(m', c, FRAME_WORDS, 14); WordAt(m', c, FRAME_WORDS, 15);
  }

  // ------------------------------------------------------------ the processor

  class Cpu {
    var regs: Regs
    var esp: int
    var mem: Memory

    /** push; the stack does not reach address 0. ws is what the stack holds from esp on. */
    method Push(w: Word, ghost ws: seq<Word>)
      requires 4 <= esp && Words(mem, esp, |ws|) == ws
      modifies this`esp, this`mem
      ensures esp == old(esp) - 4
      ensures Words(mem, esp, |ws| + 1) == [w] + ws
      ensures forall a :: a >= old(esp) || a < esp ==> mem(a) == old(mem)(a)
    {
      WordsAfterPush(mem, esp, |ws|, w);
      esp := esp - 4;
      mem := Store32(mem, esp, w);
    }

    /** pop of the word number i of the frame ws at ctx. */
    method Pop(ghost ctx: int, ghost i: nat, ghost ws: seq<Word>) returns (w: Word)
      requires esp == ctx + 4 * i && i < |ws| && Words(mem, ctx, |ws|) == ws
      modifies this`esp
      ensures w == ws[i] && esp == ctx + 4 * (i + 1)
    {
      w := Load32(mem, esp);
      esp := esp + 4;
    }

    /** int 0x60 at the same privilege level. */
    method Interrupt()
      requires 12 <= esp
      modifies this`esp, this`mem
      ensures esp == old(esp) - 12
      ensures Words(mem, esp, 3) == Frame(regs, 0)[13..]
      ensures forall a :: a >= old(esp) || a < esp ==> mem(a) == old(mem)(a)
    {
      Push(regs.eflags, []);
      Push(regs.cs, [regs.eflags]);
      Push(regs.eip, [regs.cs, regs.eflags]);
    }

    /** sys_call_isr.s:6-13. */
    method PushGeneral(ghost ws: seq<Word>)
      requires 32 <= esp < 0x1_0000_0000 && Words(mem, esp, |ws|) == ws
      modifies this`esp, this`mem
      ensures esp == old(esp) - 32
      ensures Words(mem, esp, |ws| + 8) == Frame(regs, old(esp) - 20)[5..13] + ws
      ensures forall a :: a >= old(esp) || a < esp ==> mem(a) == old(mem)(a)
    {
      hide Words;
      hide Frame;
      ghost var e: Word := esp - 20;
      PushFour(regs.eax, regs.ecx, regs.edx, regs.ebx, ws);
      ghost var w4: seq<Word> := [regs.ebx, regs.edx, regs.ecx, regs.eax] + ws;
      PushPointers(w4);
      GeneralFrame(regs, e, ws);
    }

    /** sys_call_isr.s:10-13. */
    method PushPointers(ghost ws: seq<Word>)
      requires 16 <= esp < 0x1_0000_0000 && Words(mem, esp, |ws|) == ws
      modifies this`esp, this`mem
      ensures esp == old(esp) - 16
      ensures Words(mem, esp, |ws| + 4) == [regs.edi, regs.esi, old(esp) - 4, regs.ebp] + ws
      ensures forall x :: x >= old(esp) || x < esp ==> mem(x) == old(mem)(x)
    {
      hide Words;
      Push(regs.ebp, ws);
      ghost var w1: seq<Word> := [regs.ebp] + ws;
      var e: Word := esp;
      Push(e, w1);
      ghost var w2: seq<Word> := [e] + w1;
      Push(regs.esi, w2);
      ghost var w3: seq<Word> := [regs.esi] + w2;
      Push(regs.edi, w3);
      assert [regs.edi] + ([regs.esi] + ([e] + ([regs.ebp] + ws))) == [regs.edi, regs.esi, e, regs.ebp] + ws;
    }

    /** Four pushes in a row (sys_call_isr.s:6-9). */
    method PushFour(a: Word, b: Word, c: Word, d: Word, ghost ws: seq<Word>)
      requires 16 <= esp < 0x1_0000_0000 && Words(mem, esp, |ws|) == ws
      modifies this`esp, this`mem
      ensures esp == old(esp) - 16 && Words(mem, esp, |ws| + 4) == [d, c, b, a] + ws
      ensures forall x :: x >= old(esp) || x < esp ==> mem(x) == old(mem)(x)
    {
      hide Words;
      Push(a, ws);
      ghost var w1: seq<Word> := [a] + ws;
      Push(b, w1);
      ghost var w2: seq<Word> := [b] + w1;
      Push(c, w2);
      ghost var w3: seq<Word> := [c] + w2;
      Push(d, w3);
      assert [d] + ([c] + ([b] + ([a] + ws))) == [d, c, b, a] + ws;
    }

    /** sys_call_isr.s:14-19. */
    method PushSegments(ghost ws: seq<Word>)
      requires 24 <= esp < 0x1_0000_0000 && Words(mem, esp, |ws|) == ws
      modifies this`esp, this`mem
      ensures esp == old(esp) - 24
      ensures Words(mem, esp, |ws| + 6) == [esp + 4] + Frame(regs, 0)[..5] + ws
      ensures forall a :: a >= old(esp) || a < esp ==> mem(a) == old(mem)(a)
    {
      hide Words;
      hide Frame;
      Push(regs.ss, ws);
      ghost var w1: seq<Word> := [regs.ss] + ws;
      Push(regs.ds, w1);
      ghost var w2: seq<Word> := [regs.ds] + w1;
      Push(regs.es, w2);
      ghost var w3: seq<Word> := [regs.es] + w2;
      Push(regs.fs, w3);
      ghost var w4: seq<Word> := [regs.fs] + w3;
      Push(regs.gs, w4);
      ghost var w5: seq<Word> := [regs.gs] + w4;
      var e: Word := esp;
      Push(e, w5);
      SegmentsFrame(regs, e, ws);
    }

    /** int 0x60, then sys_call_isr.s:6-19. */
    method Save()
      requires 68 <= esp < 0x1_0000_0000
      modifies this`esp, this`mem
      ensures esp == old(esp) - 68
      ensures Pushed(old(mem), mem, regs, old(esp))
    {
      Interrupt();
      hide Words;
      hide Frame;
      ghost var w3 := Frame(regs, 0)[13..];
      PushGeneral(w3);
      ghost var w11 := Frame(regs, old(esp) - 32)[5..13] + w3;
      PushSegments(w11);
      FrameBehind(mem, esp, regs, old(esp) - 32);
    }

    /** mov esp, eax and the pops (sys_call_isr.s:21-35). */
    method Restore(ctx: Word)
      modifies this
      ensures mem == old(mem) && esp == ctx + 64
      ensures regs == Restored(Words(mem, ctx, FRAME_WORDS))
    {
      hide Words;
      hide Low;
      ghost var ws := Words(mem, ctx, FRAME_WORDS);
      esp := ctx;
      var gs, fs, es, ds, ss := PopSegments(ctx, ws);
      var edi, esi, ebp, ebx, edx, ecx, eax := PopGeneral(ctx, ws);
      var eip, cs, eflags := Iret(ctx, ws);
      regs := Regs(gs, fs, es, ds, ss, edi, esi, ebp, ebx, edx, ecx, eax, eip, cs, eflags);
    }

    /** iret at the same privilege level (sys_call_isr.s:35). */
    method Iret(ghost ctx: int, ghost ws: seq<Word>) returns (eip: Word, cs: Selector, eflags: Word)
      requires esp == ctx + 52 && |ws| == FRAME_WORDS && Words(mem, ctx, |ws|) == ws
      modifies this`esp
      ensures esp == ctx + 64
      ensures eip == ws[13] && cs == Low(ws[14]) && eflags == ws[15]
    {
      eip := Pop(ctx, 13, ws);
      var w := Pop(ctx, 14, ws);
      cs := Low(w);
      eflags := Pop(ctx, 15, ws);
    }

    /** sys_call_isr.s:27-34; `add esp, 4` skips the saved stack pointer. */
    method PopGeneral(ghost ctx: int, ghost ws: seq<Word>)
      returns (edi: Word, esi: Word, ebp: Word, ebx: Word, edx: Word, ecx: Word, eax: Word)
      requires esp == ctx + 20 && |ws| == FRAME_WORDS && Words(mem, ctx, |ws|) == ws
      modifies this`esp
      ensures esp == ctx + 52
      ensures edi == ws[5] && esi == ws[6] && ebp == ws[8] && ebx == ws[9]
      ensures edx == ws[10] && ecx == ws[11] && eax == ws[12]
    {
      edi := Pop(ctx, 5, ws);
      esi := Pop(ctx, 6, ws);
      esp := esp + 4;
      ebp := Pop(ctx, 8, ws);
      ebx := Pop(ctx, 9, ws);
      edx := Pop(ctx, 10, ws);
      ecx := Pop(ctx, 11, ws);
      eax := Pop(ctx, 12, ws);
    }

    /** sys_call_isr.s:22-26: a pop of a segment register takes the low half of the word. */
    method PopSegments(ghost ctx: int, ghost ws: seq<Word>)
      returns (gs: Selector, fs: Selector, es: Selector, ds: Selector, ss: Selector)
      requires esp == ctx && |ws| == FRAME_WORDS && Words(mem, ctx, |ws|) == ws
      modifies this`esp
      ensures esp == ctx + 20
      ensures gs == Low(ws[0]) && fs == Low(ws[1]) && es == Low(ws[2])
      ensures ds == Low(ws[3]) && ss == Low(ws[4])
    {
      var w := Pop(ctx, 0, ws);
      gs := Low(w);
      w := Pop(ctx, 1, ws);
      fs := Low(w);
      w := Pop(ctx, 2, ws);
      es := Low(w);
      w := Pop(ctx, 3, ws);
      ds := Low(w);
      w := Pop(ctx, 4, ws);
      ss := Low(w);
    }
  }

  lemma WordsTail(m: Memory, a: int, n: nat)
    ensures Words(m, a, n + 1)[1..] == Words(m, a + 4, n) && Words(m, a, n + 1)[0] == Load32(m, a)
  {
  }

  lemma GeneralFrame(r: Regs, e: Word, ws: seq<Word>)
    ensures var f: seq<Word> := Frame(r, e)[5..13];
            [r.edi, r.esi, e, r.ebp] + ([r.ebx, r.edx, r.ecx, r.eax] + ws) == f + ws
  {
  }

  lemma FrameParts(r: Regs, e: Word)
    ensures Frame(r, 0)[..5] + (Frame(r, e)[5..13] + Frame(r, 0)[13..]) == Frame(r, e)
  {
  }

  /** The word at a, and behind it the frame that the three groups of pushes make up. */
  lemma FrameBehind(m: Memory, a: Word, r: Regs, e: Word)
    requires a + 4 < 0x1_0000_0000
    requires Words(m, a, 17) == [a + 4] + Frame(r, 0)[..5] + (Frame(r, e)[5..13] + Frame(r, 0)[13..])
    ensures Words(m, a + 4, FRAME_WORDS) == Frame(r, e) && Load32(m, a) == a + 4
  {
    FrameParts(r, e);
    WordsTail(m, a, 16);
  }

  /** The selector in a word. */
  function Low(w: Word): Selector {
    w % 0x1_0000
  }

  lemma SegmentsFrame(r: Regs, e: Word, ws: seq<Word>)
    ensures var f: seq<Word> := Frame(r, 0)[..5];
            [e] + ([r.gs] + ([r.fs] + ([r.es] + ([r.ds] + ([r.ss] + ws))))) == [e] + f + ws
  {
  }

  /** The registers that popping a frame loads. */
  function Restored(w: seq<Word>): Regs
    requires |w| == FRAME_WORDS
  {
    Regs(Low(w[0]), Low(w[1]), Low(w[2]), Low(w[3]), Low(w[4]),
         w[5], w[6], w[8], w[9], w[10], w[11], w[12], w[13], Low(w[14]), w[15])
  }

  /** Popping a saved frame in which only eax has been written brings back every register but eax. */
  lemma RestoreInvertsSave(r: Regs, esp: Word, v: Word)
    ensures Restored(Frame(r, esp)[EAX := v]) == r.(eax := v)
  {
  }

  /** A whole system call that hands the caller's own context back. The C code in between may write
      anywhere outside the frame, and the result v into its eax field. Every register but eax and the stack
      depth are as before the interrupt. */
  method ServeAndReturn(cpu: Cpu, v: Word, scratch: Memory)
    requires 68 <= cpu.esp < 0x1_0000_0000
    modifies cpu
    ensures cpu.regs == old(cpu.regs).(eax := v) && cpu.esp == old(cpu.esp)
    ensures forall a :: a >= old(cpu.esp) ==> cpu.mem(a) == scratch(a)
  {
    cpu.Save();
    var ctx := cpu.esp + 4;
    cpu.mem := Interfere(cpu.mem, ctx, v, scratch);
    ComeBack(cpu, ctx, cpu.regs, old(cpu.esp) - 32, v);
  }

  /** An operation that is not supported (sys_call.c:41-43): the C code uses the stack below the frame and
      writes -1 to eax, so the caller's stack is untouched as well. */
  method Refuse(cpu: Cpu, scratch: Memory)
    requires 68 <= cpu.esp < 0x1_0000_0000 && forall a :: a >= cpu.esp ==> scratch(a) == cpu.mem(a)
    modifies cpu
    ensures cpu.regs == old(cpu.regs).(eax := 0xFFFF_FFFF) && cpu.esp == old(cpu.esp)
    ensures forall a :: a >= old(cpu.esp) ==> cpu.mem(a) == old(cpu.mem)(a)
  {
    ServeAndReturn(cpu, 0xFFFF_FFFF, scratch);
  }

  /** What the C code may do to memory: anything outside the frame, and v in its eax field. */
  method Interfere(m: Memory, ctx: Word, v: Word, scratch: Memory) returns (m': Memory)
    ensures Words(m', ctx, FRAME_WORDS) == Words(m, ctx, FRAME_WORDS)[EAX := v]
    ensures forall a :: a < ctx || a >= ctx + 4 * FRAME_WORDS ==> m'(a) == scratch(a)
  {
    m' := x => if ctx <= x < ctx + 4 * FRAME_WORDS then m(x) else scratch(x);
    WordsFrame(m, m', ctx, FRAME_WORDS);
    WordsAfterStore(m', ctx, FRAME_WORDS, EAX, v);
    m' := Store32(m', ctx + 4 * EAX, v);
  }

  lemma WordsFrame(m: Memory, m': Memory, a: int, n: nat)
    requires forall x :: a <= x < a + 4 * n ==> m'(x) == m(x)
    ensures Words(m', a, n) == Words(m, a, n)
  {
  }

  /** A process that was switched away from comes back: whatever ran meanwhile, if the frame it saved
      still holds what Save wrote, except for eax, it continues with its registers and stack pointer. */
  method ComeBack(cpu: Cpu, ctx: Word, ghost r: Regs, ghost e: Word, ghost v: Word)
    requires Words(cpu.mem, ctx, FRAME_WORDS) == Frame(r, e)[EAX := v]
    modifies cpu
    ensures cpu.regs == r.(eax := v) && cpu.esp == ctx + 64 && cpu.mem == old(cpu.mem)
  {
    cpu.Restore(ctx);
    RestoreInvertsSave(r, e, v);
  }

  // ------------------------------------------------------------ the frame of a new process

  const STACK_SIZE := 1024
  const STACK_OFFSET := 24  // of the stack array in struct pcb: an 8-byte name and four ints come first

  /** load and load_pcb: where the first frame of the PCB at address pcb goes (interface.c:812). */
  function FirstFrame(pcb: int): int {
    pcb + STACK_OFFSET + STACK_SIZE - 2 - 4 * FRAME_WORDS
  }

  function FirstRegs(pcb: Word, proc: Word): Regs
    requires pcb + STACK_OFFSET < 0x1_0000_0000
  {
    Regs(0x10, 0x10, 0x10, 0x10, 0x10, 0, 0, pcb + STACK_OFFSET, 0, 0, 0, 0, proc, 0x08, 0x0202)
  }

  /** An assignment to the field number i of the context at address base. */
  method SetField(m: Memory, base: int, i: nat, w: Word, ghost ws: seq<Word>) returns (m': Memory)
    requires i < FRAME_WORDS && Words(m, base, FRAME_WORDS) == ws
    ensures Words(m', base, FRAME_WORDS) == ws[i := w]
    ensures forall a :: a < base || a >= base + 4 * FRAME_WORDS ==> m'(a) == m(a)
  {
    WordsAfterStore(m, base, FRAME_WORDS, i, w);
    m' := Store32(m, base + 4 * i, w);
  }

  /** pcb.c:483-488. */
  method SetSegments(m: Memory, cp: int, ghost ws: seq<Word>) returns (m': Memory)
    requires Words(m, cp, FRAME_WORDS) == ws
    ensures Words(m', cp, FRAME_WORDS) == [0x10, 0x10, 0x10, 0x10, 0x10] + ws[5..14] + [0x08] + ws[15..]
    ensures forall a :: a < cp || a >= cp + 4 * FRAME_WORDS ==> m'(a) == m(a)
  {
    hide Words;
    m' := SetField(m, cp, 14, 0x08, ws);
    m' := SetField(m', cp, 3, 0x10, ws[14 := 0x08]);
    m' := SetField(m', cp, 2, 0x10, ws[14 := 0x08][3 := 0x10]);
    m' := SetField(m', cp, 1, 0x10, ws[14 := 0x08][3 := 0x10][2 := 0x10]);
    m' := SetField(m', cp, 0, 0x10, ws[14 := 0x08][3 := 0x10][2 := 0x10][1 := 0x10]);
    m' := SetField(m', cp, 4, 0x10, ws[14 := 0x08][3 := 0x10][2 := 0x10][1 := 0x10][0 := 0x10]);
  }

  /** pcb.c:490-494. */
  method SetPointers(m: Memory, cp: int, ebp: Word, esp: Word, proc: Word, ghost ws: seq<Word>) returns (m': Memory)
    requires Words(m, cp, FRAME_WORDS) == ws
    ensures Words(m', cp, FRAME_WORDS) == ws[..7] + [esp, ebp] + ws[9..13] + [proc] + [ws[14]] + [0x0202]
    ensures forall a :: a < cp || a >= cp + 4 * FRAME_WORDS ==> m'(a) == m(a)
  {
    m' := SetField(m, cp, 8, ebp, ws);
    m' := SetField(m', cp, 7, esp, ws[8 := ebp]);
    m' := SetField(m', cp, 13, proc, ws[8 := ebp][7 := esp]);
    m' := SetField(m', cp, 15, 0x0202, ws[8 := ebp][7 := esp][13 := proc]);
  }

  /** pcb.c:496-501. */
  method ClearGeneral(m: Memory, cp: int, ghost ws: seq<Word>) returns (m': Memory)
    requires Words(m, cp, FRAME_WORDS) == ws
    ensures Words(m', cp, FRAME_WORDS) == ws[..5] + [0, 0] + ws[7..9] + [0, 0, 0, 0] + ws[13..]
    ensures forall a :: a < cp || a >= cp + 4 * FRAME_WORDS ==> m'(a) == m(a)
  {
    m' := SetField(m, cp, EAX, 0, ws);
    m' := SetField(m', cp, 9, 0, ws[EAX := 0]);
    m' := SetField(m', cp, 11, 0, ws[EAX := 0][9 := 0]);
    m' := SetField(m', cp, 10, 0, ws[EAX := 0][9 := 0][11 := 0]);
    m' := SetField(m', cp, 6, 0, ws[EAX := 0][9 := 0][11 := 0][10 := 0]);
    m' := SetField(m', cp, 5, 0, ws[EAX := 0][9 := 0][11 := 0][10 := 0][6 := 0]);
  }

  /** Together the three groups of assignments write all sixteen fields. */
  lemma FirstFrameWords(ws: seq<Word>, pcb: Word, proc: Word, cp: Word)
    requires |ws| == FRAME_WORDS && pcb + STACK_OFFSET < 0x1_0000_0000
    ensures var w1: seq<Word> := [0x10, 0x10, 0x10, 0x10, 0x10] + ws[5..14] + [0x08] + ws[15..];
      var w2: seq<Word> := w1[..7] + [cp, pcb + STACK_OFFSET] + w1[9..13] + [proc] + [w1[14]] + [0x0202];
      w2[..5] + [0, 0] + w2[7..9] + [0, 0, 0, 0] + w2[13..] == Frame(FirstRegs(pcb, proc), cp)
  {
  }

  /** load_pcb (pcb.c:479-502): the frame lies inside the 1024 bytes of the PCB's own stack, and no byte
      outside the frame changes. */
  method LoadPcb(m: Memory, pcb: Word, proc: Word) returns (m': Memory)
    requires pcb + STACK_OFFSET + STACK_SIZE <= 0x1_0000_0000
    ensures Words(m', FirstFrame(pcb), FRAME_WORDS) == Frame(FirstRegs(pcb, proc), FirstFrame(pcb))
    ensures pcb + STACK_OFFSET <= FirstFrame(pcb)
    ensures FirstFrame(pcb) + 4 * FRAME_WORDS <= pcb + STACK_OFFSET + STACK_SIZE
    ensures forall a :: a < FirstFrame(pcb) || a >= FirstFrame(pcb) + 4 * FRAME_WORDS ==> m'(a) == m(a)
  {
    var cp := FirstFrame(pcb);
    FirstFrameWords(Words(m, cp, FRAME_WORDS), pcb, proc, cp);
    m' := SetSegments(m, cp, Words(m, cp, FRAME_WORDS));
    m' := SetPointers(m', cp, pcb + STACK_OFFSET, cp, proc, Words(m', cp, FRAME_WORDS));
    m' := ClearGeneral(m', cp, Words(m', cp, FRAME_WORDS));
  }

  /** Dispatching a process for the first time: control goes to proc with eflags 0x0202 and the stack
      pointer two bytes below the end of the PCB's stack. */
  method StartProcess(cpu: Cpu, pcb: Word, proc: Word)
    requires pcb + STACK_OFFSET + STACK_SIZE <= 0x1_0000_0000
    modifies cpu
    ensures var r := cpu.regs;
      && r.eip == proc && r.eflags == 0x0202 && r.cs == 0x08
      && r.ds == r.es == r.fs == r.gs == r.ss == 0x10 && r.ebp == pcb + STACK_OFFSET
      && r.eax == r.ebx == r.ecx == r.edx == r.esi == r.edi == 0
    ensures cpu.esp == pcb + STACK_OFFSET + STACK_SIZE - 2
    ensures forall a :: a < FirstFrame(pcb) || a >= FirstFrame(pcb) + 4 * FRAME_WORDS ==> cpu.mem(a) == old(cpu.mem)(a)
  {
    var m := LoadPcb(cpu.mem, pcb, proc);
    cpu.mem := m;
    cpu.Restore(FirstFrame(pcb));
    RestoreInvertsSave(FirstRegs(pcb, proc), FirstFrame(pcb), 0);
    assert Frame(FirstRegs(pcb, proc), FirstFrame(pcb))[EAX := 0] == Frame(FirstRegs(pcb, proc), FirstFrame(pcb));
  }
}
