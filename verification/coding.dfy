// Variable-length and fixed-width integers, as bitdb writes them.

module Coding {

  type byte = b: int | 0 <= b < 256
  type Bytes = seq<byte>

  const TWO28 := 0x1000_0000
  const TWO31 := 0x8000_0000
  const TWO32 := 0x1_0000_0000
  const TWO64 := 0x1_0000_0000_0000_0000

  /* ---- varints: unsigned LEB128, section 7.6 of DWARF 4 ---- */

  function Varint(v: nat): (r: Bytes)
    ensures |r| >= 1
  {
    if v < 128 then [v] else [v % 128 + 128] + Varint(v / 128)
  }

  // EncodeVarint32 and EncodeVarint64 run the same loop.
  method EncodeVarint(value: nat) returns (dst: Bytes)
    ensures dst == Varint(value)
  {
    dst := [];
    var v := value;
    while v >= 128
      invariant dst + Varint(v) == Varint(value)
    {
      dst := dst + [v % 128 + 128];
      v := v / 128;
    }
    dst := dst + [v];
  }

  // The number that groups of seven bits spell, low group first.
  function Groups(bs: Bytes): nat {
    if bs == [] then 0 else bs[0] % 128 + 128 * Groups(bs[1..])
  }

  // Every byte but the last has its high bit set, there is no empty group at
  // the end, and the groups spell the value.
  lemma {:induction false} VarintSpells(v: nat)
    ensures var r := Varint(v);
            && Groups(r) == v
            && (forall i :: 0 <= i < |r| - 1 ==> r[i] >= 128) && r[|r| - 1] < 128
            && (|r| > 1 ==> r[|r| - 1] > 0)
  {
    if v >= 128 {
      VarintSpells(v / 128);
      var r, rest := Varint(v), Varint(v / 128);
      assert r[1..] == rest;
      assert forall i :: 0 < i < |r| ==> r[i] == rest[i - 1];
    }
  }

  lemma VarintLength(v: nat)
    ensures v < TWO28 <==> |Varint(v)| <= 4
    ensures v < TWO32 ==> |Varint(v)| <= 5
  {
    var v1 := v / 128;
    var v2 := v1 / 128;
    var v3 := v2 / 128;
    var v4 := v3 / 128;
    assert |Varint(v)| == if v < 128 then 1 else 1 + |Varint(v1)|;
    assert |Varint(v1)| == if v1 < 128 then 1 else 1 + |Varint(v2)|;
    assert |Varint(v2)| == if v2 < 128 then 1 else 1 + |Varint(v3)|;
    assert |Varint(v3)| == if v3 < 128 then 1 else 1 + |Varint(v4)|;
  }

  lemma VarintFirst(v: nat, s: Bytes)
    ensures (Varint(v) + s)[0] == if v < 128 then v else v % 128 + 128
    ensures (Varint(v) + s)[1..] == if v < 128 then s else Varint(v / 128) + s
  {
  }

  // No encoding is a prefix of another.
  lemma {:induction false} VarintPrefixFree(a: nat, b: nat, s: Bytes, t: Bytes)
    requires Varint(a) + s == Varint(b) + t
    ensures a == b && s == t
  {
    hide Varint;
    VarintFirst(a, s);
    VarintFirst(b, t);
    if a >= 128 && b >= 128 { VarintPrefixFree(a / 128, b / 128, s, t); }
  }

  /* ---- decoding ---- */

  // Undefined: the decoder reads past the end, or shifts an int by 32 or more.
  datatype Decoded = Undefined | Decoded(value: nat, length: nat)

  // The value of an int expression with bit pattern x.
  function AsInt32(x: nat): int {
    var w := x % TWO32;
    if w < TWO31 then w else w - TWO32
  }

  // v shifted left by 7 * group bits.
  function Shl(v: nat, group: nat): (r: nat)
    requires group < 5
  {
    match group
    case 0 => v
    case 1 => v * 0x80
    case 2 => v * 0x4000
    case 3 => v * 0x20_0000
    case _ => v * 0x1000_0000
  }

  // Adding one group of seven bits. The byte is shifted as an int and then
  // or-ed into an accumulator of `width` values; the windows do not overlap,
  // so or is addition modulo the width.
  function Accumulate(acc: nat, low: nat, group: nat, width: nat): (r: nat)
    requires group < 5 && width > 0
  {
    (acc + AsInt32(Shl(low, group))) % width
  }

  // The decoding loops, at byte `at`, which is number `group` of the varint.
  function DecodeFrom(src: Bytes, at: nat, group: nat, acc: nat, width: nat): Decoded
    requires width > 0
    decreases |src| - at
  {
    if at >= |src| || group >= 5 then Undefined
    else if src[at] >= 128 then
      DecodeFrom(src, at + 1, group + 1, Accumulate(acc, src[at] - 128, group, width), width)
    else Decoded(Accumulate(acc, src[at], group, width), at + 1)
  }

  function DecodeVarint32(src: Bytes): Decoded {
    DecodeFrom(src, 0, 0, 0, TWO32)
  }

  function DecodeVarint64(src: Bytes): Decoded {
    DecodeFrom(src, 0, 0, 0, TWO64)
  }

  method RunDecoder(src: Bytes, width: nat) returns (r: Decoded)
    requires width > 0
    ensures r == DecodeFrom(src, 0, 0, 0, width)
  {
    var at, group, acc: nat := 0, 0, 0;
    while at < |src| && group < 5 && src[at] >= 128
      invariant 0 <= at && 0 <= group
      invariant DecodeFrom(src, 0, 0, 0, width) == DecodeFrom(src, at, group, acc, width)
      decreases |src| - at
    {
      acc := Accumulate(acc, src[at] - 128, group, width);
      at, group := at + 1, group + 1;
    }
    if at >= |src| || group >= 5 { return Undefined; }
    return Decoded(Accumulate(acc, src[at], group, width), at + 1);
  }

  // Where a varint that starts at `at` ends: at the first byte without a high bit.
  function LastByte(src: Bytes, at: nat): (n: nat)
    requires at <= |src|
    ensures at <= n <= |src| && (n < |src| ==> src[n] < 128) && forall i :: at <= i < n ==> src[i] >= 128
    decreases |src| - at
  {
    if at == |src| || src[at] < 128 then at else LastByte(src, at + 1)
  }

  predicate Congruent(a: int, b: int) {
    (a - b) % TWO32 == 0
  }

  lemma AccumulateCongruent(acc: nat, low: nat, group: nat, width: nat)
    requires group < 5 && (width == TWO32 || width == TWO64)
    ensures Congruent(Accumulate(acc, low, group, width), acc + Shl(low, group))
  {
    hide Shl;
  }

  lemma ShlGroup(low: nat, rest: nat, group: nat)
    requires group < 4
    ensures Shl(low + 128 * rest, group) == Shl(low, group) + Shl(rest, group + 1)
  {
  }

  lemma {:induction false} DecodeFromExact(src: Bytes, at: nat, group: nat, acc: nat, width: nat)
    requires at <= |src| && group <= 5 && (width == TWO32 || width == TWO64)
    ensures var n, d := LastByte(src, at), DecodeFrom(src, at, group, acc, width);
            && (d.Decoded? <==> n < |src| && group + (n - at) < 5)
            && (d.Decoded? ==> group < 5 && d.length == n + 1 && d.value < width
                               && Congruent(d.value, acc + Shl(Groups(src[at..n + 1]), group)))
    decreases |src| - at
  {
    hide Shl, Accumulate, Congruent;
    if at < |src| && group < 5 {
      var n := LastByte(src, at);
      if src[at] < 128 {
        AccumulateCongruent(acc, src[at], group, width);
        assert src[at..at + 1] == [src[at]] && Groups([]) == 0;
        AccumulateBelow(acc, src[at], group, width);
      } else {
        var next := Accumulate(acc, src[at] - 128, group, width);
        DecodeFromExact(src, at + 1, group + 1, next, width);
        if n < |src| && group + (n - at) < 5 {
          AccumulateCongruent(acc, src[at] - 128, group, width);
          assert src[at..n + 1][1..] == src[at + 1..n + 1];
          ShlGroup(src[at] - 128, Groups(src[at + 1..n + 1]), group);
          Chained(DecodeFrom(src, at, group, acc, width).value, next, Shl(Groups(src[at + 1..n + 1]), group + 1),
                  acc + Shl(src[at] - 128, group));
        }
      }
    }
  }

  lemma AccumulateBelow(acc: nat, low: nat, group: nat, width: nat)
    requires group < 5 && width > 0
    ensures Accumulate(acc, low, group, width) < width
  {
  }

  lemma Chained(a: int, b: int, c: int, d: int)
    requires Congruent(a, b + c) && Congruent(b, d)
    ensures Congruent(a, d + c)
  {
  }

  // On every input the decoders read up to the first byte without a high bit,
  // which must be one of the first five, and give what the groups spell; of a
  // number beyond 32 bits the low ones are right.
  lemma DecodeExact(src: Bytes, width: nat)
    requires width == TWO32 || width == TWO64
    ensures var n, d := LastByte(src, 0), DecodeFrom(src, 0, 0, 0, width);
            && (d.Decoded? <==> n < |src| && n < 5)
            && (d.Decoded? ==> d.length == n + 1 && d.value < width && Congruent(d.value, Groups(src[..n + 1])))
  {
    hide DecodeFrom, Congruent;
    DecodeFromExact(src, 0, 0, 0, width);
    var n := LastByte(src, 0);
    if n < |src| { assert src[0..n + 1] == src[..n + 1]; }
  }

  // One round of a decoder on an encoded value of more than seven bits.
  lemma DecodeRound(v: nat, pre: Bytes, post: Bytes, group: nat, acc: nat, width: nat)
    requires v >= 128 && group < 5 && width > 0
    ensures |Varint(v)| == 1 + |Varint(v / 128)|
    ensures DecodeFrom(pre + Varint(v) + post, |pre|, group, acc, width)
         == DecodeFrom((pre + [v % 128 + 128]) + Varint(v / 128) + post, |pre| + 1, group + 1,
                       Accumulate(acc, v % 128, group, width), width)
  {
    hide Accumulate;
    var src := pre + Varint(v) + post;
    assert src[|pre|] == v % 128 + 128;
    assert src == (pre + [v % 128 + 128]) + Varint(v / 128) + post;
  }

  lemma DecodeLast(v: nat, pre: Bytes, post: Bytes, group: nat, acc: nat, width: nat)
    requires v < 128 && group < 5 && width > 0
    ensures DecodeFrom(pre + Varint(v) + post, |pre|, group, acc, width)
         == Decoded(Accumulate(acc, v, group, width), |pre| + |Varint(v)|)
  {
    hide Accumulate;
    assert (pre + Varint(v) + post)[|pre|] == v;
  }

  lemma Split128(v: nat)
    ensures v == 128 * (v / 128) + v % 128 && v / 128 <= v && (v >= 128 ==> v / 128 < v)
  {
  }

  // The low seven bits and the rest, each shifted to its place.
  lemma ShlSplit(v: nat, group: nat)
    requires group < 4
    ensures Shl(v % 128, group) + Shl(v / 128, group + 1) == Shl(v, group)
  {
    Split128(v);
  }

  lemma ShlLarge(v: nat, group: nat)
    requires group < 5 && v >= 128 && Shl(v, group) < TWO32
    ensures group < 4
  {
  }

  // Below the int's range nothing is lost.
  lemma Accumulate32(acc: nat, low: nat, group: nat)
    requires group < 5 && acc + Shl(low, group) < TWO32
    ensures Accumulate(acc, low, group, TWO32) == acc + Shl(low, group)
  {
    hide Shl;
    var x := Shl(low, group);
    if x >= TWO31 { assert (acc + x - TWO32) % TWO32 == acc + x; }
  }

  lemma Accumulate64(acc: nat, low: nat, group: nat)
    requires group < 5 && acc + Shl(low, group) < TWO31
    ensures Accumulate(acc, low, group, TWO64) == acc + Shl(low, group)
  {
    hide Shl;
  }

  /* ---- every 32-bit value round trips, whatever bytes follow ---- */

  lemma {:induction false} Decode32From(v: nat, pre: Bytes, post: Bytes, group: nat, acc: nat)
    requires group < 5 && acc + Shl(v, group) < TWO32
    ensures DecodeFrom(pre + Varint(v) + post, |pre|, group, acc, TWO32)
         == Decoded(acc + Shl(v, group), |pre| + |Varint(v)|)
    decreases v
  {
    hide DecodeFrom, Accumulate, Varint, Shl;
    if v < 128 {
      DecodeLast(v, pre, post, group, acc, TWO32);
      Accumulate32(acc, v, group);
    } else {
      DecodeRound(v, pre, post, group, acc, TWO32);
      ShlLarge(v, group);
      ShlSplit(v, group);
      Accumulate32(acc, v % 128, group);
      Decode32From(v / 128, pre + [v % 128 + 128], post, group + 1, acc + Shl(v % 128, group));
    }
  }

  lemma Varint32RoundTrip(v: nat, post: Bytes)
    requires v < TWO32
    ensures DecodeVarint32(Varint(v) + post) == Decoded(v, |Varint(v)|)
  {
    hide DecodeFrom, Varint;
    Decode32From(v, [], post, 0, 0);
    assert [] + Varint(v) + post == Varint(v) + post;
  }

  /* ---- 64-bit values round trip exactly below 2^31 ---- */

  lemma {:induction false} Decode64From(v: nat, pre: Bytes, post: Bytes, group: nat, acc: nat)
    requires group < 5 && acc + Shl(v, group) < TWO31
    ensures DecodeFrom(pre + Varint(v) + post, |pre|, group, acc, TWO64)
         == Decoded(acc + Shl(v, group), |pre| + |Varint(v)|)
    decreases v
  {
    hide DecodeFrom, Accumulate, Varint, Shl;
    if v < 128 {
      DecodeLast(v, pre, post, group, acc, TWO64);
      Accumulate64(acc, v, group);
    } else {
      DecodeRound(v, pre, post, group, acc, TWO64);
      ShlLarge(v, group);
      ShlSplit(v, group);
      Accumulate64(acc, v % 128, group);
      Decode64From(v / 128, pre + [v % 128 + 128], post, group + 1, acc + Shl(v % 128, group));
    }
  }

  lemma ShlWindow(v: nat, group: nat, acc: nat)
    requires group < 4 && acc < Shl(1, group)
    ensures acc + Shl(v % 128, group) < Shl(1, group + 1) <= TWO28
    ensures Accumulate(acc, v % 128, group, TWO64) == acc + Shl(v % 128, group)
  {
  }

  lemma FifthByte(v: nat, group: nat, acc: nat)
    requires group < 5 && v < 128 && acc < Shl(1, group) && acc + Shl(v, group) >= TWO31
    ensures Accumulate(acc, v, group, TWO64) != acc + Shl(v, group)
  {
    assert group == 4 && v >= 8;
    assert AsInt32(v * 0x1000_0000) == if v % 16 < 8 then (v % 16) * 0x1000_0000 else (v % 16) * 0x1000_0000 - TWO32;
  }

  lemma AfterFive(src: Bytes, at: nat, acc: nat)
    ensures DecodeFrom(src, at, 5, acc, TWO64).Undefined?
  {
  }

  // The fifth byte is shifted by 28 as an int, so bits above the 31st are lost
  // or smeared; a sixth byte would be shifted past the int's width.
  lemma {:induction false} Decode64Wrong(v: nat, pre: Bytes, post: Bytes, group: nat, acc: nat)
    requires group < 5 && acc < Shl(1, group) && acc + Shl(v, group) >= TWO31
    ensures var d := DecodeFrom(pre + Varint(v) + post, |pre|, group, acc, TWO64);
            d.Undefined? || d.value != acc + Shl(v, group)
    decreases v
  {
    hide DecodeFrom, Accumulate, Varint, Shl;
    if v < 128 {
      DecodeLast(v, pre, post, group, acc, TWO64);
      FifthByte(v, group, acc);
    } else {
      DecodeRound(v, pre, post, group, acc, TWO64);
      if group == 4 {
        AfterFive((pre + [v % 128 + 128]) + Varint(v / 128) + post, |pre| + 1, Accumulate(acc, v % 128, group, TWO64));
      } else {
        ShlSplit(v, group);
        ShlWindow(v, group, acc);
        Decode64Wrong(v / 128, pre + [v % 128 + 128], post, group + 1, acc + Shl(v % 128, group));
      }
    }
  }

  // The decoder shifts in int: this is exactly where it is right.
  lemma Varint64RoundTrip(v: nat, post: Bytes)
    ensures DecodeVarint64(Varint(v) + post) == Decoded(v, |Varint(v)|) <==> v < TWO31
  {
    hide DecodeFrom, Varint;
    assert [] + Varint(v) + post == Varint(v) + post;
    if v < TWO31 { Decode64From(v, [], post, 0, 0); } else { Decode64Wrong(v, [], post, 0, 0); }
  }

  /* ---- fixed 32-bit words, low byte first ---- */

  // Each byte is what is left after one more shift by eight.
  function Fixed32(v: nat): (r: Bytes)
    requires v < TWO32
    ensures |r| == 4
  {
    var a := v / 256;
    var b := a / 256;
    [v % 256, a % 256, b % 256, b / 256]
  }

  function DecodeFixed32(b: Bytes): nat
    requires |b| >= 4
  {
    b[0] as nat + b[1] as nat * 0x100 + b[2] as nat * 0x1_0000 + b[3] as nat * 0x100_0000
  }

  lemma Fixed32Sum(v: nat)
    requires v < TWO32
    ensures DecodeFixed32(Fixed32(v)) == v
  {
    var a := v / 256;
    var b := a / 256;
    assert v == 256 * a + v % 256 && a == 256 * b + a % 256 && b == 256 * (b / 256) + b % 256;
  }

  lemma DecodeFixed32Prefix(b: Bytes, post: Bytes)
    requires |b| == 4
    ensures DecodeFixed32(b + post) == DecodeFixed32(b)
  {
  }

  lemma Fixed32Bytes(v: nat)
    requires v < TWO32
    ensures var r := Fixed32(v);
            r[0] == v % 0x100 && r[1] == v / 0x100 % 0x100 && r[2] == v / 0x1_0000 % 0x100 && r[3] == v / 0x100_0000
  {
    DivideTwice(v);
    DivideTwice(v / 0x100);
  }

  lemma DivideTwice(v: nat)
    ensures v / 0x100 / 0x100 == v / 0x1_0000
  {
  }

  method EncodeFixed32(dst: array<byte>, v: nat)
    requires dst.Length >= 4 && v < TWO32
    modifies dst
    ensures dst[..4] == Fixed32(v)
    ensures dst[4..] == old(dst[4..])
    ensures DecodeFixed32(dst[..]) == v
    ensures dst[0] == v % 0x100 && dst[1] == v / 0x100 % 0x100
    ensures dst[2] == v / 0x1_0000 % 0x100 && dst[3] == v / 0x100_0000
  {
    hide DecodeFixed32;
    Fixed32Bytes(v);
    var a := v / 256;
    var b := a / 256;
    dst[0] := v % 256;
    dst[1] := a % 256;
    dst[2] := b % 256;
    dst[3] := b / 256;
    Fixed32RoundTrip(v, dst[4..]);
    assert dst[..4] == Fixed32(v);
    assert dst[..] == Fixed32(v) + dst[4..];
    assert forall i :: 0 <= i < 4 ==> dst[i] == dst[..4][i];
  }

  lemma Fixed32RoundTrip(v: nat, post: Bytes)
    requires v < TWO32
    ensures DecodeFixed32(Fixed32(v) + post) == v
  {
    hide Fixed32, DecodeFixed32;
    Fixed32Sum(v);
    DecodeFixed32Prefix(Fixed32(v), post);
  }
}
