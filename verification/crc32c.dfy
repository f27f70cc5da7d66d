// CRC-32C (section 12.1 of RFC 3720), as the record checksum uses it, and the
// damage that it always shows.

module Crc32c {
  import opened Coding

  type word = w: int | 0 <= w < 0x1_0000_0000

  function Shift(c: bv32): bv32 {
    if c & 1 == 1 then (c >> 1) ^ 0x82F6_3B78 else c >> 1
  }

  function Shift8(c: bv32): bv32 {
    Shift(Shift(Shift(Shift(Shift(Shift(Shift(Shift(c))))))))
  }

  function Xor(a: bv32, b: bv32): bv32 {
    a ^ b
  }

  function Absorb(c: bv32, x: bv32): bv32 {
    Shift8(Xor(c, x))
  }

  function FromByte(b: byte): bv32 {
    b as bv32
  }

  function Fold(c: bv32, data: Bytes): bv32
    decreases |data|
  {
    if data == [] then c else Fold(Absorb(c, FromByte(data[0])), data[1..])
  }

  function ToWord(c: bv32): word {
    c as int
  }

  function FromWord(crc: word): bv32 {
    crc as bv32
  }

  function Flip(c: bv32): bv32 {
    !c
  }

  // crc32c::Extend: continue a checksum over more data.
  function Extend(crc: word, data: Bytes): word {
    ToWord(Flip(Fold(Flip(FromWord(crc)), data)))
  }

  function Crc(data: Bytes): word {
    Extend(0, data)
  }

  lemma {:induction false} FoldConcat(c: bv32, a: Bytes, b: Bytes)
    ensures Fold(c, a + b) == Fold(Fold(c, a), b)
    decreases |a|
  {
    hide Absorb, FromByte;
    if a == [] {
      assert a + b == b;
    } else {
      assert (a + b)[0] == a[0] && (a + b)[1..] == a[1..] + b;
      FoldConcat(Absorb(c, FromByte(a[0])), a[1..], b);
    }
  }

  lemma WordAndBack(c: bv32)
    ensures FromWord(ToWord(c)) == c
  {
  }

  lemma FlipTwice(c: bv32)
    ensures Flip(Flip(c)) == c
  {
  }

  // Checksumming in pieces is checksumming the whole.
  lemma ExtendConcat(crc: word, a: Bytes, b: Bytes)
    ensures Extend(Extend(crc, a), b) == Extend(crc, a + b)
  {
    hide Fold, Flip, ToWord, FromWord;
    var c := Flip(FromWord(crc));
    FoldConcat(c, a, b);
    WordAndBack(Flip(Fold(c, a)));
    FlipTwice(Fold(c, a));
  }

  /* ---- nothing is forgotten ---- */

  lemma ShiftOneToOne(a: bv32, b: bv32)
    requires Shift(a) == Shift(b)
    ensures a == b
  {
  }

  lemma Shift8OneToOne(a: bv32, b: bv32)
    requires Shift8(a) == Shift8(b)
    ensures a == b
  {
    hide Shift;
    var a1, b1 := Shift(a), Shift(b);
    var a2, b2 := Shift(a1), Shift(b1);
    var a3, b3 := Shift(a2), Shift(b2);
    var a4, b4 := Shift(a3), Shift(b3);
    var a5, b5 := Shift(a4), Shift(b4);
    var a6, b6 := Shift(a5), Shift(b5);
    var a7, b7 := Shift(a6), Shift(b6);
    ShiftOneToOne(a7, b7);
    ShiftOneToOne(a6, b6);
    ShiftOneToOne(a5, b5);
    ShiftOneToOne(a4, b4);
    ShiftOneToOne(a3, b3);
    ShiftOneToOne(a2, b2);
    ShiftOneToOne(a1, b1);
    ShiftOneToOne(a, b);
  }

  lemma XorOneToOne(a: bv32, b: bv32, x: bv32)
    ensures Xor(a, x) == Xor(b, x) ==> a == b
    ensures Xor(x, a) == Xor(x, b) ==> a == b
  {
  }

  lemma AbsorbOneToOne(c: bv32, d: bv32, x: bv32)
    requires Absorb(c, x) == Absorb(d, x)
    ensures c == d
  {
    hide Shift8, Xor;
    Shift8OneToOne(Xor(c, x), Xor(d, x));
    XorOneToOne(c, d, x);
  }

  // Different states stay different, whatever follows.
  lemma {:induction false} FoldOneToOne(c: bv32, d: bv32, data: Bytes)
    requires Fold(c, data) == Fold(d, data)
    ensures c == d
    decreases |data|
  {
    hide Absorb, FromByte;
    if data != [] {
      var x := FromByte(data[0]);
      FoldOneToOne(Absorb(c, x), Absorb(d, x), data[1..]);
      AbsorbOneToOne(c, d, x);
    }
  }

  /* ---- four bytes are taken in like one word ---- */

  lemma XorIs(a: bv32, b: bv32)
    ensures Xor(a, b) == a ^ b
  {
  }

  lemma XorAssociative(a: bv32, b: bv32, c: bv32)
    ensures Xor(Xor(a, b), c) == Xor(a, Xor(b, c))
  {
    hide Xor;
    XorIs(a, b);
    XorIs(b, c);
    XorIs(a ^ b, c);
    XorIs(a, b ^ c);
  }

  function Twice(y: bv32): bv32 {
    y << 1
  }

  // Eight bits up.
  function Up(y: bv32): bv32 {
    Twice(Twice(Twice(Twice(Twice(Twice(Twice(Twice(y))))))))
  }

  lemma ShiftOdd(c: bv32)
    requires c & 1 == 1
    ensures Shift(c) == (c >> 1) ^ 0x82F6_3B78
  {
  }

  lemma ShiftEven(c: bv32)
    requires c & 1 == 0
    ensures Shift(c) == c >> 1
  {
  }

  lemma OddMoves(a: bv32, z: bv32)
    requires z < 0x8000_0000 && a & 1 == 1
    ensures Shift(a ^ (z << 1)) == Shift(a) ^ z
  {
    hide Shift;
    ShiftOdd(a);
    ShiftOdd(a ^ (z << 1));
  }

  lemma EvenMoves(a: bv32, z: bv32)
    requires z < 0x8000_0000 && a & 1 == 0
    ensures Shift(a ^ (z << 1)) == Shift(a) ^ z
  {
    hide Shift;
    ShiftEven(a);
    ShiftEven(a ^ (z << 1));
  }

  lemma OddOrEven(a: bv32)
    ensures a & 1 == 0 || a & 1 == 1
  {
  }

  // A bit above the lowest is only moved.
  lemma ShiftMovesBits(a: bv32, z: bv32)
    requires z < 0x8000_0000
    ensures Shift(a ^ (z << 1)) == Shift(a) ^ z
  {
    hide Shift;
    OddOrEven(a);
    if a & 1 == 1 { OddMoves(a, z); } else { EvenMoves(a, z); }
  }

  lemma ShiftMoves(a: bv32, z: bv32)
    requires z < 0x8000_0000
    ensures Shift(Xor(a, Twice(z))) == Xor(Shift(a), z)
  {
    hide Shift;
    ShiftMovesBits(a, z);
  }

  lemma TwiceIsSmall(y: bv32)
    requires y < 0x100_0000
    ensures var y1 := Twice(y); var y2 := Twice(y1); var y3 := Twice(y2); var y4 := Twice(y3);
            var y5 := Twice(y4); var y6 := Twice(y5); var y7 := Twice(y6);
            && y1 < 0x8000_0000 && y2 < 0x8000_0000 && y3 < 0x8000_0000 && y4 < 0x8000_0000
            && y5 < 0x8000_0000 && y6 < 0x8000_0000 && y7 < 0x8000_0000
  {
  }

  // So are bits above the lowest eight by eight shifts.
  lemma Shift8Moves(a: bv32, y: bv32)
    requires y < 0x100_0000
    ensures Shift8(Xor(a, Up(y))) == Xor(Shift8(a), y)
  {
    TwiceIsSmall(y);
    var a1, y1 := Shift(a), Twice(y);
    var a2, y2 := Shift(a1), Twice(y1);
    var a3, y3 := Shift(a2), Twice(y2);
    var a4, y4 := Shift(a3), Twice(y3);
    var a5, y5 := Shift(a4), Twice(y4);
    var a6, y6 := Shift(a5), Twice(y5);
    var a7, y7 := Shift(a6), Twice(y6);
    hide Shift, Xor, Twice;
    ShiftMoves(a, y7);
    ShiftMoves(a1, y6);
    ShiftMoves(a2, y5);
    ShiftMoves(a3, y4);
    ShiftMoves(a4, y3);
    ShiftMoves(a5, y2);
    ShiftMoves(a6, y1);
    ShiftMoves(a7, y);
  }

  // Four bytes as one word, low byte first.
  function Joined(x0: bv32, x1: bv32, x2: bv32, x3: bv32): bv32 {
    Xor(Xor(Xor(x0, Up(x1)), Up(Up(x2))), Up(Up(Up(x3))))
  }

  lemma UpIs(x: bv32)
    requires x < 256
    ensures Up(x) == x << 8 && Up(x) < 0x100_0000 && x < 0x100_0000
    ensures Up(Up(x)) == x << 16 && Up(Up(x)) < 0x100_0000
    ensures Up(Up(Up(x))) == x << 24
  {
  }

  lemma JoinedApart(x0: bv32, x1: bv32, x2: bv32, x3: bv32)
    requires x0 < 256 && x1 < 256 && x2 < 256 && x3 < 256
    ensures var w := Joined(x0, x1, x2, x3);
            w & 0xFF == x0 && (w >> 8) & 0xFF == x1 && (w >> 16) & 0xFF == x2 && w >> 24 == x3
  {
    hide Up;
    UpIs(x1);
    UpIs(x2);
    UpIs(x3);
  }

  lemma AbsorbFour(c: bv32, x0: bv32, x1: bv32, x2: bv32, x3: bv32)
    requires x1 < 256 && x2 < 256 && x3 < 256
    ensures Absorb(Absorb(Absorb(Absorb(c, x0), x1), x2), x3)
         == Shift8(Shift8(Shift8(Shift8(Xor(c, Joined(x0, x1, x2, x3))))))
  {
    hide Shift8, Xor, Up;
    UpIs(x1);
    UpIs(x2);
    UpIs(x3);
    var u0 := Xor(c, x0);
    var u1 := Xor(u0, Up(x1));
    var u2 := Xor(u1, Up(Up(x2)));
    Shift8Moves(u0, x1);
    Shift8Moves(u1, Up(x2));
    Shift8Moves(Shift8(u1), x2);
    Shift8Moves(u2, Up(Up(x3)));
    Shift8Moves(Shift8(u2), Up(x3));
    Shift8Moves(Shift8(Shift8(u2)), x3);
    XorAssociative(c, x0, Up(x1));
    XorAssociative(c, Xor(x0, Up(x1)), Up(Up(x2)));
    XorAssociative(c, Xor(Xor(x0, Up(x1)), Up(Up(x2))), Up(Up(Up(x3))));
  }

  lemma ByteRange(b: byte)
    ensures FromByte(b) < 256
  {
  }

  lemma NextWord(x: bv32)
    requires x < 256
    ensures ToWord(x + 1) == ToWord(x) + 1
  {
  }

  lemma {:induction false} WordOf(b: nat) returns (x: bv32)
    requires b < 256
    ensures x <= 256 && ToWord(x) == b
  {
    if b == 0 {
      x := 0;
    } else {
      x := WordOf(b - 1);
      NextWord(x);
      x := x + 1;
    }
  }

  lemma ByteIsWord(b: byte)
    ensures ToWord(FromByte(b)) == b
  {
    var x := WordOf(b);
    WordAndBack(x);
  }

  lemma FoldFour(c: bv32, data: Bytes)
    requires |data| >= 4
    ensures var w := Joined(FromByte(data[0]), FromByte(data[1]), FromByte(data[2]), FromByte(data[3]));
            Fold(c, data) == Fold(Shift8(Shift8(Shift8(Shift8(Xor(c, w))))), data[4..])
  {
    hide Shift8, Absorb, FromByte, Joined, Xor;
    var x0, x1, x2, x3 := FromByte(data[0]), FromByte(data[1]), FromByte(data[2]), FromByte(data[3]);
    assert data[1..][1..] == data[2..] && data[2..][1..] == data[3..] && data[3..][1..] == data[4..];
    var c2 := Absorb(Absorb(c, x0), x1);
    assert Fold(c, data) == Fold(c2, data[2..]);
    assert Fold(c2, data[2..]) == Fold(Absorb(Absorb(c2, x2), x3), data[4..]);
    ByteRange(data[1]);
    ByteRange(data[2]);
    ByteRange(data[3]);
    AbsorbFour(c, x0, x1, x2, x3);
  }

  lemma JoinedOneToOne(a: Bytes, b: Bytes)
    requires |a| >= 4 && |b| >= 4
    requires Joined(FromByte(a[0]), FromByte(a[1]), FromByte(a[2]), FromByte(a[3]))
          == Joined(FromByte(b[0]), FromByte(b[1]), FromByte(b[2]), FromByte(b[3]))
    ensures a[..4] == b[..4]
  {
    hide FromByte, Joined, ToWord;
    forall i | 0 <= i < 4 ensures FromByte(a[i]) < 256 && FromByte(b[i]) < 256 {
      ByteRange(a[i]);
      ByteRange(b[i]);
    }
    JoinedApart(FromByte(a[0]), FromByte(a[1]), FromByte(a[2]), FromByte(a[3]));
    JoinedApart(FromByte(b[0]), FromByte(b[1]), FromByte(b[2]), FromByte(b[3]));
    forall i | 0 <= i < 4 ensures a[i] == b[i] {
      ByteIsWord(a[i]);
      ByteIsWord(b[i]);
    }
  }

  lemma FourShiftsOneToOne(x: bv32, y: bv32)
    requires Shift8(Shift8(Shift8(Shift8(x)))) == Shift8(Shift8(Shift8(Shift8(y))))
    ensures x == y
  {
    hide Shift8;
    Shift8OneToOne(Shift8(Shift8(Shift8(x))), Shift8(Shift8(Shift8(y))));
    Shift8OneToOne(Shift8(Shift8(x)), Shift8(Shift8(y)));
    Shift8OneToOne(Shift8(x), Shift8(y));
    Shift8OneToOne(x, y);
  }

  lemma FoldBurst(c: bv32, a: Bytes, b: Bytes)
    requires |a| >= 4 && |b| >= 4 && a[4..] == b[4..] && Fold(c, a) == Fold(c, b)
    ensures a[..4] == b[..4]
  {
    hide Fold, Shift8, FromByte, Joined, Xor;
    var v := Joined(FromByte(a[0]), FromByte(a[1]), FromByte(a[2]), FromByte(a[3]));
    var w := Joined(FromByte(b[0]), FromByte(b[1]), FromByte(b[2]), FromByte(b[3]));
    FoldFour(c, a);
    FoldFour(c, b);
    FoldOneToOne(Shift8(Shift8(Shift8(Shift8(Xor(c, v))))), Shift8(Shift8(Shift8(Shift8(Xor(c, w))))), a[4..]);
    FourShiftsOneToOne(Xor(c, v), Xor(c, w));
    XorOneToOne(v, w, c);
    JoinedOneToOne(a, b);
  }

  // Damage within four adjacent bytes always changes the checksum.
  lemma BurstIsSeen(data: Bytes, other: Bytes, i: nat)
    requires |data| == |other| && i + 4 <= |data| && data != other
    requires data[..i] == other[..i] && data[i + 4..] == other[i + 4..]
    ensures Crc(data) != Crc(other)
  {
    hide Fold, Flip, FromWord, ToWord;
    var c := Flip(FromWord(0));
    var a, b := data[i..], other[i..];
    assert data == data[..i] + a && other == data[..i] + b;
    FoldConcat(c, data[..i], a);
    FoldConcat(c, data[..i], b);
    if Crc(data) == Crc(other) {
      WordAndBack(Flip(Fold(c, data)));
      WordAndBack(Flip(Fold(c, other)));
      FlipTwice(Fold(c, data));
      FlipTwice(Fold(c, other));
      assert a == a[..4] + a[4..] && b == b[..4] + b[4..];
      assert a[4..] == data[i + 4..] && b[4..] == other[i + 4..];
      FoldBurst(Fold(c, data[..i]), a, b);
    }
  }

  /* ---- the check value ---- */

  lemma FoldOne(c: bv32, b: byte, x: bv32, data: Bytes)
    requires b == ToWord(x)
    ensures Fold(c, [b] + data) == Fold(Absorb(c, x), data)
  {
    hide Absorb;
    assert ([b] + data)[1..] == data;
    WordAndBack(x);
  }

  lemma CheckRounds()
    ensures Absorb(0xFFFF_FFFF, 0x31) == 0x6F0A_661C
    ensures Absorb(0x6F0A_661C, 0x32) == 0x8CAA_3B9F
    ensures Absorb(0x8CAA_3B9F, 0x33) == 0xEF84_D04D
    ensures Absorb(0xEF84_D04D, 0x34) == 0x09C5_0B11
    ensures Absorb(0x09C5_0B11, 0x35) == 0xE72E_DCCA
    ensures Absorb(0xE72E_DCCA, 0x36) == 0xBECA_8E79
    ensures Absorb(0xBECA_8E79, 0x37) == 0xEDBD_6815
    ensures Absorb(0xEDBD_6815, 0x38) == 0x9F78_7F65
    ensures Absorb(0x9F78_7F65, 0x39) == 0x1CF9_6D7C
  {
  }

  lemma CheckEnds()
    ensures Flip(FromWord(0)) == 0xFFFF_FFFF && ToWord(Flip(0x1CF9_6D7C)) == 0xE306_9283
  {
  }

  lemma EmptyFold(c: bv32)
    ensures Fold(c, []) == c
  {
  }

  lemma CheckFirst(rest: Bytes)
    ensures Fold(0xFFFF_FFFF, [0x31] + ([0x32] + ([0x33] + ([0x34] + ([0x35] + rest))))) == Fold(0xE72E_DCCA, rest)
  {
    hide Absorb, Fold;
    CheckRounds();
    FoldOne(0xFFFF_FFFF, 0x31, 0x31, [0x32] + ([0x33] + ([0x34] + ([0x35] + rest))));
    FoldOne(0x6F0A_661C, 0x32, 0x32, [0x33] + ([0x34] + ([0x35] + rest)));
    FoldOne(0x8CAA_3B9F, 0x33, 0x33, [0x34] + ([0x35] + rest));
    FoldOne(0xEF84_D04D, 0x34, 0x34, [0x35] + rest);
    FoldOne(0x09C5_0B11, 0x35, 0x35, rest);
  }

  lemma CheckRest()
    ensures Fold(0xE72E_DCCA, [0x36] + ([0x37] + ([0x38] + ([0x39] + [])))) == 0x1CF9_6D7C
  {
    hide Absorb, Fold;
    CheckRounds();
    FoldOne(0xE72E_DCCA, 0x36, 0x36, [0x37] + ([0x38] + ([0x39] + [])));
    FoldOne(0xBECA_8E79, 0x37, 0x37, [0x38] + ([0x39] + []));
    FoldOne(0xEDBD_6815, 0x38, 0x38, [0x39] + []);
    FoldOne(0x9F78_7F65, 0x39, 0x39, []);
    EmptyFold(0x1CF9_6D7C);
  }

  // The checksum of the digits 1 to 9, the check value of CRC-32C.
  lemma CheckValue()
    ensures Crc([0x31, 0x32, 0x33, 0x34, 0x35, 0x36, 0x37, 0x38, 0x39]) == 0xE306_9283
  {
    hide Absorb, Fold, Flip, FromWord, ToWord;
    var rest: Bytes := [0x36] + ([0x37] + ([0x38] + ([0x39] + [])));
    CheckEnds();
    CheckFirst(rest);
    CheckRest();
    assert [0x31] + ([0x32] + ([0x33] + ([0x34] + ([0x35] + rest))))
        == [0x31, 0x32, 0x33, 0x34, 0x35, 0x36, 0x37, 0x38, 0x39];
  }
}
