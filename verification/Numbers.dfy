/** Machine words as numbers, byte by byte. */
module Numbers {
  import opened Words

  type U32 = a: int | 0 <= a < 0x1_0000_0000

  function Num(b: bv8): (n: int)
    ensures 0 <= n < 256
  {
    b as int
  }

  function Byte(n: int): bv8
    requires 0 <= n < 256
  {
    n as bv8
  }

  function Pack(b0: bv8, b1: bv8, b2: bv8, b3: bv8): Word {
    (b3 as Word << 24) | (b2 as Word << 16) | (b1 as Word << 8) | b0 as Word
  }

  function ByteK(w: Word, k: nat): bv8 {
    (if k == 0 then w & 0xff else if k == 1 then (w >> 8) & 0xff else if k == 2 then (w >> 16) & 0xff
        else w >> 24) as bv8
  }

  /** The unsigned number a word stands for. */
  function ToNum(w: Word): (n: U32) {
    Num(ByteK(w, 0)) + 0x100 * Num(ByteK(w, 1)) + 0x1_0000 * Num(ByteK(w, 2)) + 0x100_0000 * Num(ByteK(w, 3))
  }

  /** The word of a number. */
  function ToWord(n: U32): Word {
    Pack(Byte(n % 0x100), Byte(n / 0x100 % 0x100), Byte(n / 0x1_0000 % 0x100), Byte(n / 0x100_0000))
  }

  lemma ByteOfNum(b: bv8)
    ensures Byte(Num(b)) == b
  {
  }

  lemma NumNext(b: bv8)
    requires b != 0xff
    ensures Num(b + 1) == Num(b) + 1
  {
  }

  lemma NumEnds()
    ensures Num(0) == 0 && Num(0xff) == 255
  {
  }

  /** Every number below 256 is the number of some byte. */
  lemma {:induction false} CountTo(n: int) returns (b: bv8)
    requires 0 <= n < 256
    ensures Num(b) == n
  {
    hide Num;
    NumEnds();
    if n == 0 {
      b := 0;
    } else {
      var before := CountTo(n - 1);
      NumNext(before);
      b := before + 1;
    }
  }

  lemma NumOfByte(n: int)
    requires 0 <= n < 256
    ensures Num(Byte(n)) == n
  {
    hide Num, Byte;
    var b := CountTo(n);
    ByteOfNum(b);
  }

  lemma PackBack(b0: bv8, b1: bv8, b2: bv8, b3: bv8, w: Word)
    ensures var p := Pack(b0, b1, b2, b3);
            ByteK(p, 0) == b0 && ByteK(p, 1) == b1 && ByteK(p, 2) == b2 && ByteK(p, 3) == b3
    ensures Pack(ByteK(w, 0), ByteK(w, 1), ByteK(w, 2), ByteK(w, 3)) == w
  {
  }

  lemma Digits(n: U32)
    ensures n == n % 0x100 + 0x100 * (n / 0x100 % 0x100) + 0x1_0000 * (n / 0x1_0000 % 0x100)
            + 0x100_0000 * (n / 0x100_0000)
    ensures n / 0x100_0000 < 256
  {
    var q1 := n / 0x100;
    var q2 := q1 / 0x100;
    Quotients(n % 0x100, q1 % 0x100, q2 % 0x100, q2 / 0x100);
  }

  /** A number put together from four digits is taken apart into them again. */
  lemma Quotients(d0: int, d1: int, d2: int, d3: int)
    requires 0 <= d0 < 256 && 0 <= d1 < 256 && 0 <= d2 < 256
    ensures var n := d0 + 0x100 * d1 + 0x1_0000 * d2 + 0x100_0000 * d3;
            && n / 0x100 == d1 + 0x100 * d2 + 0x1_0000 * d3 && n / 0x1_0000 == d2 + 0x100 * d3
            && n / 0x100_0000 == d3
  {
  }

  lemma DigitsBack(d0: int, d1: int, d2: int, d3: int)
    requires 0 <= d0 < 256 && 0 <= d1 < 256 && 0 <= d2 < 256 && 0 <= d3 < 256
    ensures var n := d0 + 0x100 * d1 + 0x1_0000 * d2 + 0x100_0000 * d3;
            n % 0x100 == d0 && n / 0x100 % 0x100 == d1 && n / 0x1_0000 % 0x100 == d2 && n / 0x100_0000 == d3
  {
    var n := d0 + 0x100 * d1 + 0x1_0000 * d2 + 0x100_0000 * d3;
    assert n / 0x100 == d1 + 0x100 * d2 + 0x1_0000 * d3;
    assert n / 0x1_0000 == d2 + 0x100 * d3;
  }

  lemma NumBack(n: U32)
    ensures ToNum(ToWord(n)) == n
  {
    hide Num, Byte, Pack, ByteK;
    var d0, d1, d2, d3 := n % 0x100, n / 0x100 % 0x100, n / 0x1_0000 % 0x100, n / 0x100_0000;
    PackBack(Byte(d0), Byte(d1), Byte(d2), Byte(d3), 0);
    NumOfByte(d0);
    NumOfByte(d1);
    NumOfByte(d2);
    NumOfByte(d3);
    Digits(n);
  }

  lemma WordBack(w: Word)
    ensures ToWord(ToNum(w)) == w
  {
    hide Num, Byte, Pack, ByteK;
    PackBack(0, 0, 0, 0, w);
    ByteOfNum(ByteK(w, 0));
    ByteOfNum(ByteK(w, 1));
    ByteOfNum(ByteK(w, 2));
    ByteOfNum(ByteK(w, 3));
    DigitsBack(Num(ByteK(w, 0)), Num(ByteK(w, 1)), Num(ByteK(w, 2)), Num(ByteK(w, 3)));
  }
}
