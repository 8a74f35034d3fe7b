/** Page-table entries: a frame number above twelve flag bits, taken apart and put together with C masks. */
module Pte {
  import opened Bits

  const PTE_PRESENT: Word := 0x001
  const PTE_RW: Word := 0x002
  const PTE_USER: Word := 0x004
  const FLAGS: Word := 0xFFF
  const FRAME_MASK: Word := 0xFFFF_F000

  /** Four bits at a time: a mask shifted up by one hex digit. */
  lemma {:induction false} AndDigit(a: nat, b: nat)
    ensures And(a, 16 * b) == 16 * And(a / 16, b)
    ensures And(a, 16 * b + 15) == a % 16 + 16 * And(a / 16, b)
  {
    hide And;
    AndEven(a, 8 * b);
    AndEven(a / 2, 4 * b);
    AndEven(a / 4, 2 * b);
    AndEven(a / 8, b);
    AndOdd(a, 8 * b + 7);
    AndOdd(a / 2, 4 * b + 3);
    AndOdd(a / 4, 2 * b + 1);
    AndOdd(a / 8, b);
    assert a / 2 / 2 == a / 4 && a / 4 / 2 == a / 8 && a / 8 / 2 == a / 16;
  }

  lemma {:induction false} Nibble(b: nat)
    ensures b / 2 / 2 == b / 4 && b / 4 / 2 == b / 8 && b / 8 / 2 == b / 16
    ensures b % 16 == b % 2 + 2 * (b / 2 % 2) + 4 * (b / 4 % 2) + 8 * (b / 8 % 2)
  {
  }

  lemma {:induction false} OrDigit(a: nat, b: nat)
    ensures Or(16 * a, b) == b % 16 + 16 * Or(a, b / 16)
  {
    hide Or;
    Nibble(b);
    OrTwice(8 * a, b);
    OrTwice(4 * a, b / 2);
    OrTwice(2 * a, b / 4);
    OrTwice(a, b / 8);
  }

  lemma {:induction false} Digits(w: nat)
    ensures w / 16 / 16 == w / 256 && w / 256 / 16 == w / 4096
    ensures w % 4096 == w % 16 + 16 * (w / 16 % 16) + 256 * (w / 256 % 16)
  {
  }

  // ------------------------------------------------------------------ entries

  function Present(w: Word): bool { And(w, PTE_PRESENT) != 0 }

  function Writable(w: Word): bool { And(w, PTE_RW) != 0 }

  function User(w: Word): bool { And(w, PTE_USER) != 0 }

  /** The frame an entry names: (w & 0xFFFFF000) >> 12. */
  function Frame(w: Word): (f: nat)
    ensures f < 0x10_0000
  {
    And(w, FRAME_MASK) / 4096
  }

  lemma {:induction false} FrameIs(w: Word)
    ensures And(w, FRAME_MASK) == w / 4096 * 4096 && Frame(w) == w / 4096 && And(w, FLAGS) == w % 4096
  {
    hide And;
    Digits(w);
    AndDigit(w, 0xFFF_FF00);
    AndDigit(w / 16, 0xFF_FFF0);
    AndDigit(w / 256, 0xF_FFFF);
    AllOnes(w / 4096);
    AndDigit(w, 0xFF);
    AndDigit(w / 16, 0xF);
    AndDigit(w / 256, 0);
    AndZero(w / 4096);
  }

  lemma {:induction false} AllOnes(f: nat)
    requires f < 0x10_0000
    ensures And(f, 0xF_FFFF) == f
  {
    assert Pow2(10) == 0x400;
    assert Pow2(20) == 0x10_0000;
    AndOnes(f, 20);
  }

  lemma {:induction false} FlagsAre(w: Word)
    ensures Present(w) <==> w % 2 == 1
    ensures Writable(w) <==> w / 2 % 2 == 1
    ensures User(w) <==> w / 4 % 2 == 1
  {
    hide And;
    AndOdd(w, 0);
    AndEven(w, 1);
    AndOdd(w / 2, 0);
    AndEven(w, 2);
    AndEven(w / 2, 1);
    AndOdd(w / 4, 0);
    AndZero(w / 2);
    AndZero(w / 4);
    AndZero(w / 8);
    assert w / 2 / 2 == w / 4 && w / 4 / 2 == w / 8;
  }

  /** The flags of a word are those of its low bits. */
  lemma {:induction false} FlagsLow(w: Word, w': Word)
    requires w % 4096 == w' % 4096
    ensures (Present(w) <==> Present(w')) && (Writable(w) <==> Writable(w')) && (User(w) <==> User(w'))
  {
    hide And, Present, Writable, User;
    FlagsAre(w);
    FlagsAre(w');
    LowBits(w);
    LowBits(w');
  }

  lemma {:induction false} LowBits(w: nat)
    ensures w % 2 == w % 4096 % 2 && w / 2 % 2 == w % 4096 / 2 % 2 && w / 4 % 2 == w % 4096 / 4 % 2
  {
    LowHalf(w);
    LowQuarter(w / 2);
    assert w / 2 / 2 == w / 4 && w % 4096 / 2 / 2 == w % 4096 / 4;
    assert w / 4 % 1024 % 2 == w / 4 % 2;
  }

  lemma {:induction false} LowHalf(w: nat)
    ensures w % 4096 % 2 == w % 2 && w % 4096 / 2 == w / 2 % 2048
  {
  }

  lemma {:induction false} LowQuarter(w: nat)
    ensures w % 2048 % 2 == w % 2 && w % 2048 / 2 == w / 2 % 1024
  {
  }

  /** Setting the writable bit changes nothing else. */
  lemma {:induction false} SetWritable(w: Word)
    ensures var r := Or(w, PTE_RW);
            && r < 0x1_0000_0000 && Writable(r) && Frame(r) == Frame(w)
            && (Present(r) <==> Present(w)) && (User(r) <==> User(w))
            && (Writable(w) ==> r == w)
  {
    hide And, Or, Present, Writable, User, Frame;
    OrTwo(w);
    FlagsAre(w);
    if w / 2 % 2 == 0 { AddTwo(w); }
    var r: Word := Or(w, PTE_RW);
    FlagsAre(r);
    FrameIs(w);
    FrameIs(r);
  }

  lemma {:induction false} AddTwo(w: Word)
    requires w / 2 % 2 == 0
    ensures w + 2 < 0x1_0000_0000 && (w + 2) % 2 == w % 2 && (w + 2) / 4 == w / 4 && (w + 2) / 2 % 2 == 1 && (w + 2) / 4096 == w / 4096
  {
    var q := w / 4;
    assert w == 4 * q + w % 2;
    assert w / 4096 == q / 1024;
  }

  /** Clearing it changes nothing else. */
  lemma {:induction false} ClearWritable(w: Word)
    ensures var r := And(w, 0xFFFF_FFFD);
            && !Writable(r) && Frame(r) == Frame(w) && (Present(r) <==> Present(w)) && (User(r) <==> User(w))
  {
    hide And, Present, Writable, User, Frame;
    AndOdd(w, 0x7FFF_FFFE);
    AndEven(w / 2, 0x3FFF_FFFF);
    AllOnes30(w / 4);
    DropTwo(w);
    var r := And(w, 0xFFFF_FFFD);
    FlagsAre(w);
    FlagsAre(r);
    FrameIs(w);
    FrameIs(r);
  }

  /** A word without its second bit. */
  lemma {:induction false} DropTwo(w: nat)
    ensures var r := w % 2 + 4 * (w / 4);
            && w / 2 / 2 == w / 4 && r % 2 == w % 2 && r / 2 % 2 == 0 && r / 4 % 2 == w / 4 % 2 && r / 4096 == w / 4096
  {
    var q, b := w / 4, w % 2;
    var r := b + 4 * q;
    assert r / 4 == q && r / 2 == 2 * q;
    ByFour(r);
    ByFour(w);
  }

  lemma {:induction false} ByFour(w: nat)
    ensures w / 4096 == w / 4 / 1024 && w / 2 / 2 == w / 4
  {
  }

  /** movedphys | (pte & 0xFFF) | PTE_RW: the new frame with the old flags, writable. */
  lemma {:induction false} Redirect(w: Word, f: nat)
    requires f < 0x10_0000
    ensures var r := Or(Or(f * 4096, And(w, FLAGS)), PTE_RW);
            && r < 0x1_0000_0000 && Writable(r) && Frame(r) == f && (Present(r) <==> Present(w)) && (User(r) <==> User(w))
  {
    hide And, Or, Present, Writable, User, Frame;
    FrameIs(w);
    OrFlags(f, w % 4096);
    var v: Word := f * 4096 + w % 4096;
    FlagsLow(w, v);
    FrameIs(v);
    SetWritable(v);
  }

  lemma {:induction false} OrFlags(f: nat, y: nat)
    requires y < 4096
    ensures Or(f * 4096, y) == f * 4096 + y
  {
    hide Or;
    Digits(y);
    OrDigit(256 * f, y);
    OrDigit(16 * f, y / 16);
    OrDigit(f, y / 256);
    OrZero(f);
  }

}
