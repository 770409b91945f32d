/** kernel/core-c.c: the bitmap of page frames. */
module Frames {
  import opened Common

  const PAGE_SIZE: nat := 0x1000
  const NFRAMES: nat := 16384
  const FRAME_BIT: nat := 32
  const WORDS: nat := 512
  const FULL: bv32 := 0xFFFFFFFF
  const NONE: Word := 0xFFFF_FFFF  // (uint32_t)(-1)

  // ------------------------------------------------------------ bits of a word

  predicate Bit(w: bv32, j: nat)
    requires j < 32
  {
    w & (1 << j) != 0
  }

  lemma MasksDiffer(o: nat, j: nat)
    requires o < 32 && j < 32 && j != o
    ensures (1 as bv32 << o) & (1 << j) == 0
  {
  }

  /** A mask m adds nothing to the bits of n, when the two share none. */
  lemma OrElsewhere(w: bv32, m: bv32, n: bv32)
    requires m & n == 0
    ensures (w | m) & n == w & n
  {
  }

  lemma SetBitElsewhere(w: bv32, o: nat, j: nat)
    requires o < 32 && j < 32 && o != j
    ensures Bit(w | (1 << o), j) <==> Bit(w, j)
  {
    MasksDiffer(o, j);
    OrElsewhere(w, 1 << o, 1 << j);
  }

  lemma SetBitHere(w: bv32, o: nat)
    requires o < 32
    ensures Bit(w | (1 << o), o)
  {
  }

  lemma FullWord(w: bv32)
    ensures w == FULL <==> forall j :: 0 <= j < 32 ==> Bit(w, j)
  {
    if forall j :: 0 <= j < 32 ==> Bit(w, j) {
      assert Bit(w, 0) && Bit(w, 1) && Bit(w, 2) && Bit(w, 3) && Bit(w, 4) && Bit(w, 5) && Bit(w, 6) && Bit(w, 7);
      assert Bit(w, 8) && Bit(w, 9) && Bit(w, 10) && Bit(w, 11) && Bit(w, 12) && Bit(w, 13) && Bit(w, 14) && Bit(w, 15);
      assert Bit(w, 16) && Bit(w, 17) && Bit(w, 18) && Bit(w, 19);
      assert Bit(w, 20) && Bit(w, 21) && Bit(w, 22) && Bit(w, 23);
      assert Bit(w, 24) && Bit(w, 25) && Bit(w, 26) && Bit(w, 27);
      assert Bit(w, 28) && Bit(w, 29) && Bit(w, 30) && Bit(w, 31);
    }
  }

  // ------------------------------------------------------------ the bitmap

  type Bitmap = words: seq<bv32> | |words| == WORDS witness seq(WORDS, _ => 0 as bv32)

  predicate Taken(words: Bitmap, f: nat)
    requires f < NFRAMES
  {
    Bit(words[f / FRAME_BIT], f % FRAME_BIT)
  }

  ghost function Free(words: Bitmap): set<nat> {
    set f: nat | f < NFRAMES && !Taken(words, f)
  }

  /** r is the least free frame, or NONE when every frame is taken. */
  ghost predicate FirstFree(words: Bitmap, r: Word) {
    if r == NONE then Free(words) == {}
    else r in Free(words) && forall f :: f in Free(words) ==> r <= f
  }

  lemma FirstFreeIsUnique(words: Bitmap, r: Word, q: Word)
    requires FirstFree(words, r) && FirstFree(words, q)
    ensures r == q
  {
  }

  /** find_free (383-394). */
  method FindFree(frames: array<bv32>) returns (r: Word)
    requires frames.Length == WORDS
    ensures FirstFree(frames[..], r)
  {
    ghost var words: Bitmap := frames[..];
    var i := 0;
    while i < NFRAMES / FRAME_BIT
      invariant i <= WORDS
      invariant forall f: nat :: f < FRAME_BIT * i ==> Taken(words, f)
    {
      FullWord(frames[i]);
      if frames[i] != FULL {
        var j := 0;
        while j < FRAME_BIT
          invariant j <= FRAME_BIT
          invariant forall k :: 0 <= k < j ==> Bit(words[i], k)
        {
          if frames[i] & (1 << j) == 0 {
            r := i * FRAME_BIT + j;
            assert r / FRAME_BIT == i && r % FRAME_BIT == j;
            assert r in Free(words);
            forall f | f in Free(words) ensures r <= f {
              assert f / FRAME_BIT == i ==> f % FRAME_BIT >= j;
            }
            return;
          }
          j := j + 1;
        }
      }
      forall f: nat | FRAME_BIT * i <= f < FRAME_BIT * (i + 1) ensures Taken(words, f) {
        assert f / FRAME_BIT == i;
      }
      i := i + 1;
    }
    return NONE;
  }

  /** The bitmap with frame f taken as well. */
  ghost function Take(words: Bitmap, f: nat): (words': Bitmap)
    requires f < NFRAMES
  {
    SetBitOf(words, f / FRAME_BIT, f % FRAME_BIT)
  }

  ghost function SetBitOf(words: Bitmap, index: nat, offset: nat): (words': Bitmap)
    requires index < WORDS && offset < FRAME_BIT
  {
    words[index := words[index] | (1 << offset)]
  }

  lemma TakeBit(words: Bitmap, i: nat, o: nat, k: nat, j: nat)
    requires i < WORDS && k < WORDS && o < 32 && j < 32
    ensures Bit(SetBitOf(words, i, o)[k], j) <==> (i == k && o == j) || Bit(words[k], j)
  {
    if i == k {
      if o == j {
        SetBitHere(words[i], o);
      } else {
        SetBitElsewhere(words[i], o, j);
      }
    }
  }

  /** Taking a frame takes that one and no other. */
  lemma TakeOne(words: Bitmap, f: nat, g: nat)
    requires f < NFRAMES && g < NFRAMES
    ensures Taken(Take(words, f), g) <==> g == f || Taken(words, g)
  {
    var i, o, k, j := f / FRAME_BIT, f % FRAME_BIT, g / FRAME_BIT, g % FRAME_BIT;
    assert f == g <==> i == k && o == j;
    TakeBit(words, i, o, k, j);
  }

  lemma TakeFree(words: Bitmap, f: nat)
    requires f < NFRAMES
    ensures Free(Take(words, f)) == Free(words) - {f}
  {
    forall g: nat | g < NFRAMES ensures g in Free(Take(words, f)) <==> g in Free(words) && g != f {
      TakeOne(words, f, g);
    }
  }

  /** set_bit (397-403); addr lies in the memory the bitmap covers. */
  method SetBit(frames: array<bv32>, addr: Word)
    requires frames.Length == WORDS && addr / PAGE_SIZE < NFRAMES
    modifies frames
    ensures frames[..] == Take(old(frames[..]), addr / PAGE_SIZE)
  {
    var frame := addr / PAGE_SIZE;
    var index := frame / FRAME_BIT;
    var offset := frame % FRAME_BIT;
    frames[index] := frames[index] | (1 << offset);
  }

  // ------------------------------------------------------------ frames handed out

  /** got is what k calls of new_frame on fresh pages hand out, in order, from bitmap words. */
  ghost predicate HandsOut(words: Bitmap, got: seq<nat>)
    decreases |got|
  {
    got == [] || (got[0] < NFRAMES && FirstFree(words, got[0]) && HandsOut(Take(words, got[0]), got[1..]))
  }

  /** No frame is handed out twice or was taken before, and frames come in increasing order. */
  lemma {:induction false} HandedOutOnce(words: Bitmap, got: seq<nat>)
    requires HandsOut(words, got)
    ensures forall i, j :: 0 <= i < j < |got| ==> got[i] < got[j]
    ensures forall i :: 0 <= i < |got| ==> got[i] in Free(words)
    decreases |got|
  {
    if got != [] {
      TakeFree(words, got[0]);
      HandedOutOnce(Take(words, got[0]), got[1..]);
      forall i | 0 <= i < |got| ensures got[i] in Free(words) && (i > 0 ==> got[0] < got[i]) {
        if i > 0 {
          assert got[i] == got[1..][i - 1];
        }
      }
      forall i, j | 0 <= i < j < |got| ensures got[i] < got[j] {
        if i > 0 {
          assert got[i] == got[1..][i - 1] && got[j] == got[1..][j - 1];
        }
      }
    }
  }

  /** Every free frame below one handed out has been handed out earlier. */
  lemma {:induction false} HandedOutFromBelow(words: Bitmap, got: seq<nat>, i: nat, f: nat)
    requires HandsOut(words, got) && i < |got|
    requires f in Free(words) && f < got[i]
    ensures f in got[..i]
    decreases |got|
  {
    if f == got[0] {
      assert got[..i][0] == f;
    } else {
      TakeFree(words, got[0]);
      HandedOutFromBelow(Take(words, got[0]), got[1..], i - 1, f);
      assert got[1..][..i - 1] == got[..i][1..];
    }
  }

  lemma {:induction false} EnoughFree(words: Bitmap, k: nat) returns (got: seq<nat>)
    requires k <= |Free(words)|
    ensures |got| == k && HandsOut(words, got)
    decreases k
  {
    if k == 0 {
      return [];
    }
    var r := Least(Free(words));
    TakeFree(words, r);
    var rest := EnoughFree(Take(words, r), k - 1);
    got := [r] + rest;
    assert got[1..] == rest;
  }

  lemma {:induction false} NoMoreThanFree(words: Bitmap, got: seq<nat>)
    requires HandsOut(words, got)
    ensures |got| <= |Free(words)|
    decreases |got|
  {
    if got != [] {
      assert got[0] in Free(words);
      TakeFree(words, got[0]);
      NoMoreThanFree(Take(words, got[0]), got[1..]);
    }
  }

  /** Exactly when k frames are free do k calls succeed. */
  lemma HandsOutIff(words: Bitmap, k: nat)
    ensures (exists got :: |got| == k && HandsOut(words, got)) <==> k <= |Free(words)|
  {
    if k <= |Free(words)| {
      var got := EnoughFree(words, k);
    } else if got: seq<nat> :| |got| == k && HandsOut(words, got) {
      NoMoreThanFree(words, got);
    }
  }

  ghost predicate IsLeast(s: set<nat>, m: nat) {
    m in s && forall x :: x in s ==> m <= x
  }

  /** The least element of a non-empty set. */
  ghost function Least(s: set<nat>): (m: nat)
    requires s != {}
    ensures IsLeast(s, m)
  {
    LeastExists(s);
    var m :| IsLeast(s, m);
    m
  }

  lemma {:induction false} LeastExists(s: set<nat>)
    requires s != {}
    ensures exists m :: IsLeast(s, m)
  {
    var a :| a in s;
    var t := s - {a};
    assert s == t + {a};
    if t == {} {
      assert IsLeast(s, a);
    } else {
      LeastExists(t);
      var b :| IsLeast(t, b);
      assert IsLeast(s, if a < b then a else b);
    }
  }
}
