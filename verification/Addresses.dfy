/** 15-bit hardware addresses as numbers, next to the simulator's 32-bit ones. */
module Addresses {
  import opened Words
  import opened Numbers
  import Datapath

  function LowPart(p: Pc): bv8 { (p & 0xff) as bv8 }
  function HighPart(p: Pc): bv8 { (p >> 8) as bv8 }

  lemma IndexInParts(p: Pc)
    ensures Index(p) == Num(LowPart(p)) + 0x100 * Num(HighPart(p))
  {
  }

  lemma PartsOfWord(p: Pc)
    ensures var w := Extend(p);
            ByteK(w, 0) == LowPart(p) && ByteK(w, 1) == HighPart(p) && ByteK(w, 2) == 0 && ByteK(w, 3) == 0
  {
  }

  lemma ZeroNum()
    ensures Num(0) == 0
  {
  }

  lemma IndexIsNum(p: Pc)
    ensures Index(p) == ToNum(Extend(p)) && ToWord(Index(p)) == Extend(p)
  {
    hide Num, ByteK, LowPart, HighPart, Extend, ToWord, Index;
    IndexInParts(p);
    PartsOfWord(p);
    ZeroNum();
    WordBack(Extend(p));
  }

  /** Adding a small offset does not wrap below its distance from the top. */
  lemma {:induction false} NumPlus(b: bv8, k: bv8)
    requires k <= 4 && b <= !k
    ensures Num(b + k) == Num(b) + Num(k)
    decreases k
  {
    hide Num;
    if k == 0 {
      ZeroNum();
    } else {
      OneLess(b, k);
      NumPlus(b, k - 1);
      NumNext(b + (k - 1));
      NumNext(k - 1);
    }
  }

  lemma OneLess(b: bv8, k: bv8)
    requires 0 < k <= 4 && b <= !k
    ensures k - 1 < k && k - 1 != 0xff && k - 1 + 1 == k
    ensures b <= !(k - 1) && b + (k - 1) != 0xff && b + (k - 1) + 1 == b + k
  {
  }

  lemma RoomAbove(b: bv8, k: bv8)
    requires (b & 3 == 0 && (k <= 3 || (k == 4 && b <= 0xf8))) || (b & 1 == 0 && k <= 1)
    ensures k <= 4 && b <= !k
  {
  }

  lemma PartsPlus4(p: Pc)
    requires p & 3 == 0 && p != 0x7ffc
    ensures var q := p + 4;
            if LowPart(p) == 0xfc then LowPart(q) == 0 && HighPart(q) == HighPart(p) + 1 && HighPart(p) < 0x7f
            else LowPart(q) == LowPart(p) + 4 && HighPart(q) == HighPart(p) && LowPart(p) & 3 == 0 && LowPart(p) <= 0xf8
    ensures (p + 4) & 3 == 0
  {
  }

  lemma IndexPlus4(p: Pc)
    requires p & 3 == 0 && Index(p) + 4 < MEM_SIZE
    ensures Index(Plus4(p)) == Index(p) + 4 && Plus4(p) & 3 == 0
  {
    hide Num, LowPart, HighPart, Index;
    LastIndex(p);
    IndexInParts(p);
    IndexInParts(p + 4);
    PartsPlus4(p);
    ZeroNum();
    SmallNums();
    if LowPart(p) == 0xfc {
      NumNext(HighPart(p));
    } else {
      RoomAbove(LowPart(p), 4);
      NumPlus(LowPart(p), 4);
    }
  }

  lemma SmallNums()
    ensures Num(1) == 1 && Num(2) == 2 && Num(3) == 3 && Num(4) == 4 && Num(0xfc) == 252
  {
  }

  lemma LastIndex(p: Pc)
    ensures p == 0x7ffc ==> Index(p) == 0x7ffc
  {
  }

  /** A word that is a number below 2^15 keeps its value in 15 bits. */
  lemma LowIsExact(w: Word)
    requires ToNum(w) < MEM_SIZE
    ensures Index(Datapath.Low15(w)) == ToNum(w) && Extend(Datapath.Low15(w)) == w
  {
    hide Num, ByteK, Index, Datapath.Low15, Extend;
    SmallBytes(ByteK(w, 1), ByteK(w, 2), ByteK(w, 3), Num(ByteK(w, 0)));
    UpperZero(w);
    IndexIsNum(Datapath.Low15(w));
  }

  lemma SmallBytes(b1: bv8, b2: bv8, b3: bv8, n0: int)
    requires n0 >= 0 && n0 + 0x100 * Num(b1) + 0x1_0000 * Num(b2) + 0x100_0000 * Num(b3) < MEM_SIZE
    ensures b1 < 0x80 && b2 == 0 && b3 == 0
  {
    hide Num;
    assert Num(b3) == 0 && Num(b2) == 0 && Num(b1) < 128;
    ByteOfNum(b1);
    ByteOfNum(b2);
    ByteOfNum(b3);
    ZeroByte();
    if b1 >= 0x80 { LargeByte(b1); }
  }

  lemma ZeroByte()
    ensures Byte(0) == 0
  {
  }

  lemma LargeByte(b: bv8)
    requires b >= 0x80
    ensures Num(b) >= 128
  {
  }

  lemma UpperZero(w: Word)
    requires ByteK(w, 1) < 0x80 && ByteK(w, 2) == 0 && ByteK(w, 3) == 0
    ensures Extend(Datapath.Low15(w)) == w
  {
  }

  lemma NumMod(b: bv8)
    ensures Num(b) % 4 == 0 <==> b & 3 == 0
    ensures Num(b) % 2 == 0 <==> b & 1 == 0
  {
  }

  /** Divisibility of an address is its low bits. */
  lemma LowBits(p: Pc)
    ensures Index(p) % 4 == 0 <==> p & 3 == 0
    ensures Index(p) % 2 == 0 <==> p & 1 == 0
  {
    hide Num, Index, LowPart, HighPart;
    IndexInParts(p);
    NumMod(LowPart(p));
    LowPartBits(p);
  }

  lemma LowPartBits(p: Pc)
    ensures LowPart(p) & 3 == 0 <==> p & 3 == 0
    ensures LowPart(p) & 1 == 0 <==> p & 1 == 0
  {
  }

  /** Within an aligned access addresses do not carry. */
  lemma OffsetIndex(p: Pc, k: bv8)
    requires (p & 3 == 0 && k <= 3) || (p & 1 == 0 && k <= 1)
    ensures Index(p + k as Pc) == Index(p) + Num(k)
  {
    hide Num, Index, LowPart, HighPart;
    IndexInParts(p);
    IndexInParts(p + k as Pc);
    OffsetParts(p, k);
    RoomAbove(LowPart(p), k);
    NumPlus(LowPart(p), k);
  }

  lemma OffsetParts(p: Pc, k: bv8)
    requires (p & 3 == 0 && k <= 3) || (p & 1 == 0 && k <= 1)
    ensures LowPart(p + k as Pc) == LowPart(p) + k && HighPart(p + k as Pc) == HighPart(p)
    ensures (LowPart(p) & 3 == 0 && k <= 3) || (LowPart(p) & 1 == 0 && k <= 1)
  {
  }

  lemma Offsets(p: Pc)
    ensures Index(p) + 0 == Index(p)
    ensures p & 1 == 0 ==> Index(p + 1) == Index(p) + 1
    ensures p & 3 == 0 ==> Index(p + 1) == Index(p) + 1 && Index(p + 2) == Index(p) + 2 && Index(p + 3) == Index(p) + 3
  {
    hide Index, Num;
    SmallNums();
    if p & 1 == 0 { OffsetIndex(p, 1); }
    if p & 3 == 0 {
      OffsetIndex(p, 1);
      OffsetIndex(p, 2);
      OffsetIndex(p, 3);
    }
  }
}
