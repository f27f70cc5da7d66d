// Log records as bytes: framing, transaction keys, index positions, and
// reading a record back out of a data file.

module LogRecords {
  import opened Coding
  import opened Crc32c

  const NORMAL: byte := 1
  const DELETED: byte := 2
  const TXN_FINISHED: byte := 3

  const CRC_SIZE := 4
  const MAX_HEADER := 15

  datatype LogRecord = LogRecord(key: Bytes, value: Bytes, kind: byte)

  /* ---- encoding ---- */

  // Everything after the checksum.
  function Header(r: LogRecord): (h: Bytes) {
    [r.kind] + Varint(|r.key| % TWO32) + Varint(|r.value| % TWO32)
  }

  function Body(r: LogRecord): Bytes {
    Header(r) + r.key + r.value
  }

  function Encode(r: LogRecord): Bytes {
    if r.key == [] then [] else Fixed32(Crc(Body(r))) + Body(r)
  }

  method EncodeLogRecord(r: LogRecord) returns (res: Bytes)
    ensures res == Encode(r)
  {
    hide Varint, Crc, Fixed32, DecodeFixed32;
    if r.key == [] { return []; }
    res := [0, 0, 0, 0, r.kind];
    var keyLen := EncodeVarint(|r.key| % TWO32);
    var valueLen := EncodeVarint(|r.value| % TWO32);
    res := res + keyLen + valueLen + r.key + r.value;
    assert res[CRC_SIZE..] == Body(r);
    var buf := new byte[4];
    EncodeFixed32(buf, Crc(res[CRC_SIZE..]));
    for i := 0 to CRC_SIZE
      invariant |res| == CRC_SIZE + |Body(r)| && res[CRC_SIZE..] == Body(r)
      invariant buf[..4] == Fixed32(Crc(Body(r)))
      invariant res[..i] == buf[..i]
    {
      res := res[i := buf[i]];
    }
    assert res == res[..CRC_SIZE] + res[CRC_SIZE..];
  }

  // A record the 32-bit size fields can describe.
  predicate Storable(r: LogRecord) {
    r.key != [] && |r.key| < TWO32 && |r.value| < TWO32 && |Encode(r)| < TWO32
  }

  /* ---- decoding the header ---- */

  datatype HeaderResult =
    | Short                         // fewer bytes than a checksum
    | Unreadable                    // the C++ reads outside the buffer
    | Parsed(crc: nat, kind: byte, keySize: nat, valueSize: nat, size: nat)

  function DecodeHeader(buf: Bytes): HeaderResult {
    if |buf| < CRC_SIZE then Short
    else if |buf| < CRC_SIZE + 1 then Unreadable
    else
      var at := CRC_SIZE + 1;
      match DecodeVarint32(buf[at..])
      case Undefined => Unreadable
      case Decoded(keySize, keyLen) =>
        if at + keyLen > |buf| then Unreadable
        else
          match DecodeVarint32(buf[at + keyLen..])
          case Undefined => Unreadable
          case Decoded(valueSize, valueLen) =>
            Parsed(DecodeFixed32(buf), buf[CRC_SIZE], keySize, valueSize, at + keyLen + valueLen)
  }

  lemma HeaderRoundTrip(r: LogRecord, crc: nat, post: Bytes)
    requires |r.key| < TWO32 && |r.value| < TWO32 && crc < TWO32
    ensures DecodeHeader(Fixed32(crc) + Header(r) + post)
         == Parsed(crc, r.kind, |r.key|, |r.value|, CRC_SIZE + |Header(r)|)
  {
    hide Varint, Fixed32, DecodeFixed32, DecodeVarint32;
    var k, v := Varint(|r.key|), Varint(|r.value|);
    var buf := Fixed32(crc) + Header(r) + post;
    assert buf[CRC_SIZE] == r.kind;
    assert buf[5..] == k + (v + post);
    Varint32RoundTrip(|r.key|, v + post);
    assert buf[5 + |k|..] == v + post;
    Varint32RoundTrip(|r.value|, post);
    assert buf == Fixed32(crc) + (Header(r) + post);
    Fixed32RoundTrip(crc, Header(r) + post);
  }

  lemma HeaderLength(r: LogRecord)
    ensures |Header(r)| <= MAX_HEADER - CRC_SIZE
  {
    VarintLength(|r.key| % TWO32);
    VarintLength(|r.value| % TWO32);
  }

  /* ---- reading ---- */

  datatype ReadResult =
    | EndOfFile
    | IOError
    | Corrupt
    | OutOfBounds                   // the C++ reads outside the buffer
    | Got(record: LogRecord, size: nat)

  function Take(file: Bytes, offset: nat, n: nat): Bytes
    requires offset <= |file|
  {
    if offset + n <= |file| then file[offset..offset + n] else file[offset..]
  }

  // The checksum is computed in three pieces.
  function RecordCrc(key: Bytes, value: Bytes, header: Bytes): word
    requires |header| >= CRC_SIZE
  {
    Extend(Extend(Crc(header[CRC_SIZE..]), key), value)
  }

  function ReadLogRecord(file: Bytes, offset: nat): ReadResult
    requires offset <= |file|
  {
    if file == [] then IOError
    else if offset == |file| then EndOfFile
    else
      var buf := Take(file, offset, MAX_HEADER);
      match DecodeHeader(buf)
      case Short => IOError
      case Unreadable => OutOfBounds
      case Parsed(crc, kind, keySize, valueSize, size) =>
        if crc == 0 && keySize == 0 && valueSize == 0 then IOError
        else if size > |buf| || offset + size + keySize + valueSize > |file| then OutOfBounds
        else
          var key := file[offset + size..offset + size + keySize];
          var value := file[offset + size + keySize..offset + size + keySize + valueSize];
          if size < CRC_SIZE || RecordCrc(key, value, buf[..size]) != crc then Corrupt
          else Got(LogRecord(key, value, kind), (size + keySize + valueSize) % TWO32)
  }

  // Reading a frame with a given header, key and value.
  lemma ReadFrame(pre: Bytes, head: Bytes, key: Bytes, value: Bytes, post: Bytes, crc: nat, kind: byte)
    requires CRC_SIZE <= |head| <= MAX_HEADER && key != [] && |head| + |key| + |value| < TWO32
    requires DecodeHeader(Take(pre + head + (key + value + post), |pre|, MAX_HEADER))
          == Parsed(crc, kind, |key|, |value|, |head|)
    ensures ReadLogRecord(pre + head + (key + value + post), |pre|)
         == if RecordCrc(key, value, head) == crc then Got(LogRecord(key, value, kind), |head| + |key| + |value|)
            else Corrupt
  {
    hide DecodeHeader, Crc, Extend;
    var file := pre + head + (key + value + post);
    var at := |pre| + |head|;
    assert file[at..at + |key|] == key;
    assert file[at + |key|..at + |key| + |value|] == value;
    assert Take(file, |pre|, MAX_HEADER)[..|head|] == head;
  }

  lemma HeaderAt(pre: Bytes, r: LogRecord, crc: nat, tail: Bytes)
    requires |r.key| < TWO32 && |r.value| < TWO32 && crc < TWO32
    ensures var head := Fixed32(crc) + Header(r);
            |head| <= MAX_HEADER &&
            DecodeHeader(Take(pre + head + tail, |pre|, MAX_HEADER)) == Parsed(crc, r.kind, |r.key|, |r.value|, |head|)
  {
    var head := Fixed32(crc) + Header(r);
    HeaderLength(r);
    var buf := Take(pre + head + tail, |pre|, MAX_HEADER);
    assert buf[..|head|] == head;
    assert buf == head + buf[|head|..];
    HeaderRoundTrip(r, crc, buf[|head|..]);
  }

  // A body behind any checksum, wherever in a file: the record is read back
  // exactly when the checksum is that of the body.
  lemma FrameReads(pre: Bytes, crc: nat, r: LogRecord, post: Bytes)
    requires Storable(r) && crc < TWO32
    ensures ReadLogRecord(pre + (Fixed32(crc) + Body(r)) + post, |pre|)
         == if crc == Crc(Body(r)) then Got(r, |Encode(r)|) else Corrupt
  {
    hide ReadLogRecord, DecodeHeader, Fixed32, Crc, Extend, Header;
    var head := Fixed32(crc) + Header(r);
    var tail := r.key + r.value + post;
    HeaderAt(pre, r, crc, tail);
    PiecewiseCrc(r);
    assert head[CRC_SIZE..] == Header(r);
    ReadFrame(pre, head, r.key, r.value, post, crc, r.kind);
    assert pre + (Fixed32(crc) + Body(r)) + post == pre + head + tail;
  }

  // A record is read back from wherever in a file it was written.
  lemma ReadEncoded(pre: Bytes, r: LogRecord, post: Bytes)
    requires Storable(r)
    ensures Encode(r) != []
    ensures ReadLogRecord(pre + Encode(r) + post, |pre|) == Got(r, |Encode(r)|)
  {
    hide ReadLogRecord, Fixed32, Crc, Header;
    FrameReads(pre, Crc(Body(r)), r, post);
  }

  lemma PiecewiseCrc(r: LogRecord)
    ensures Extend(Extend(Crc(Header(r)), r.key), r.value) == Crc(Body(r))
  {
    ExtendConcat(0, Header(r), r.key);
    ExtendConcat(0, Header(r) + r.key, r.value);
  }

  // What stands at an offset of a file, whatever its bytes: a frame of a header,
  // a key and a value that the header describes, all inside the file.
  ghost predicate FrameAt(file: Bytes, offset: nat, frame: Bytes, r: LogRecord, head: nat) {
    && offset <= |file| && frame <= file[offset..] && CRC_SIZE < head <= MAX_HEADER && head <= |frame|
    && DecodeHeader(Take(file, offset, MAX_HEADER)) == Parsed(DecodeFixed32(frame), r.kind, |r.key|, |r.value|, head)
    && frame[head..] == r.key + r.value
  }

  lemma {:induction false} HeaderIsAt(file: Bytes, offset: nat)
    requires offset < |file|
    ensures var buf := Take(file, offset, MAX_HEADER);
            match DecodeHeader(buf)
            case Parsed(crc, _, _, _, size) =>
              |buf| >= 4 && size > CRC_SIZE && crc == DecodeFixed32(buf) && buf <= file[offset..] && |buf| <= MAX_HEADER
            case _ => true
  {
    hide DecodeVarint32, DecodeFixed32;
  }

  lemma {:induction false} ChecksumOfFrame(file: Bytes, offset: nat, head: nat, key: Bytes, value: Bytes)
    requires offset + head + |key| + |value| <= |file| && CRC_SIZE < head
    requires file[offset + head..offset + head + |key|] == key
    requires file[offset + head + |key|..offset + head + |key| + |value|] == value
    ensures var frame := file[offset..offset + head + |key| + |value|];
            frame[head..] == key + value && RecordCrc(key, value, file[offset..offset + head]) == Crc(frame[CRC_SIZE..])
  {
    hide Fold, Extend;
    var frame := file[offset..offset + head + |key| + |value|];
    var h := file[offset..offset + head][CRC_SIZE..];
    ExtendConcat(0, h, key);
    ExtendConcat(0, h + key, value);
    assert h + key + value == frame[CRC_SIZE..];
  }

  lemma {:induction false} SameWord(file: Bytes, offset: nat, a: Bytes, b: Bytes)
    requires offset <= |file| && a <= file[offset..] && b <= file[offset..] && |a| >= 4 && |b| >= 4
    ensures DecodeFixed32(a) == DecodeFixed32(b)
  {
  }

  // On every file: a read gives a record only with the checksum of its own
  // bytes, and is told to be corrupt only without it.
  lemma {:induction false} ReadChecks(file: Bytes, offset: nat) returns (frame: Bytes, r: LogRecord, head: nat)
    requires offset < |file| && (ReadLogRecord(file, offset).Got? || ReadLogRecord(file, offset).Corrupt?)
    ensures FrameAt(file, offset, frame, r, head)
    ensures ReadLogRecord(file, offset) ==
            if DecodeFixed32(frame) == Crc(frame[CRC_SIZE..]) then Got(r, |frame| % TWO32) else Corrupt
  {
    hide DecodeHeader, DecodeFixed32, Crc, RecordCrc, ReadLogRecord;
    HeaderIsAt(file, offset);
    ReadsFrame(file, offset);
    var buf := Take(file, offset, MAX_HEADER);
    var h := DecodeHeader(buf);
    head := h.size;
    var end := offset + head + h.keySize + h.valueSize;
    r := LogRecord(file[offset + head..offset + head + h.keySize], file[offset + head + h.keySize..end], h.kind);
    frame := file[offset..end];
    SameWord(file, offset, buf, frame);
    ChecksumOfFrame(file, offset, head, r.key, r.value);
  }

  // What is read lies inside the file.
  lemma {:induction false} ReadsFrame(file: Bytes, offset: nat)
    requires offset < |file| && (ReadLogRecord(file, offset).Got? || ReadLogRecord(file, offset).Corrupt?)
    ensures var h := DecodeHeader(Take(file, offset, MAX_HEADER));
            && h.Parsed? && offset + h.size + h.keySize + h.valueSize <= |file| && CRC_SIZE < h.size <= MAX_HEADER
            && var at, end := offset + h.size, offset + h.size + h.keySize + h.valueSize;
               var key, value := file[at..at + h.keySize], file[at + h.keySize..end];
               ReadLogRecord(file, offset) ==
                 if RecordCrc(key, value, file[offset..at]) != h.crc then Corrupt
                 else Got(LogRecord(key, value, h.kind), (end - offset) % TWO32)
  {
    hide DecodeHeader, RecordCrc, DecodeFixed32;
    HeaderIsAt(file, offset);
    var buf := Take(file, offset, MAX_HEADER);
    var h := DecodeHeader(buf);
    assert buf[..h.size] == file[offset..offset + h.size];
  }

  // A written record that was damaged within four adjacent bytes behind its
  // checksum, and still looks like a record of that length, is never taken for one.
  lemma {:induction false} DamageIsSeen(pre: Bytes, r: LogRecord, d: LogRecord, i: nat, post: Bytes)
    requires Storable(r) && Storable(d) && |Body(r)| == |Body(d)| && i + 4 <= |Body(r)| && Body(d) != Body(r)
    requires Body(d)[..i] == Body(r)[..i] && Body(d)[i + 4..] == Body(r)[i + 4..]
    ensures ReadLogRecord(pre + (Fixed32(Crc(Body(r))) + Body(d)) + post, |pre|) == Corrupt
  {
    hide ReadLogRecord, Fixed32, Crc, Header, Body, Encode;
    BurstIsSeen(Body(r), Body(d), i);
    FrameReads(pre, Crc(Body(r)), d, post);
  }

  // Seven zero bytes, as in space that was never written, are no record.
  lemma {:induction false} ZeroesAreRefused(file: Bytes, offset: nat)
    requires offset + 7 <= |file| && file[offset..offset + 7] == [0, 0, 0, 0, 0, 0, 0]
    ensures ReadLogRecord(file, offset) == IOError
  {
    hide DecodeHeader;
    var buf := Take(file, offset, MAX_HEADER);
    assert buf == file[offset..offset + 7] + buf[7..];
    ZeroHeader(buf[7..]);
  }

  lemma {:induction false} ZeroHeader(rest: Bytes)
    ensures DecodeHeader([0, 0, 0, 0, 0, 0, 0] + rest) == Parsed(0, 0, 0, 0, 7)
  {
    hide DecodeVarint32;
    var buf := [0, 0, 0, 0, 0, 0, 0] + rest;
    assert Varint(0) == [0];
    assert buf[5..] == Varint(0) + ([0] + rest) && buf[6..] == Varint(0) + rest;
    Varint32RoundTrip(0, [0] + rest);
    Varint32RoundTrip(0, rest);
  }

  /* ---- a file is a concatenation of frames ---- */

  function Concat(parts: seq<Bytes>): Bytes {
    if parts == [] then [] else Concat(parts[..|parts| - 1]) + parts[|parts| - 1]
  }

  lemma {:induction false} ConcatSplit(a: seq<Bytes>, b: seq<Bytes>)
    ensures Concat(a + b) == Concat(a) + Concat(b)
    decreases |b|
  {
    if b == [] {
      assert a + b == a;
    } else {
      var front := b[..|b| - 1];
      ConcatSplit(a, front);
      assert (a + b)[..|a + b| - 1] == a + front;
      assert Concat(a + b) == Concat(a) + Concat(front) + b[|b| - 1];
    }
  }

  lemma ConcatOne(part: Bytes)
    ensures Concat([part]) == part
  {
    assert Concat([]) + part == part;
  }

  lemma ConcatNext(parts: seq<Bytes>, i: nat)
    requires i < |parts|
    ensures Concat(parts[..i + 1]) == Concat(parts[..i]) + parts[i]
  {
    hide Concat;
    assert parts[..i + 1] == parts[..i] + [parts[i]];
    ConcatOne(parts[i]);
    ConcatSplit(parts[..i], [parts[i]]);
  }

  lemma ConcatAt(parts: seq<Bytes>, i: nat)
    requires i < |parts|
    ensures Concat(parts) == Concat(parts[..i]) + parts[i] + Concat(parts[i + 1..])
  {
    hide Concat;
    ConcatNext(parts, i);
    assert parts == parts[..i + 1] + parts[i + 1..];
    ConcatSplit(parts[..i + 1], parts[i + 1..]);
  }

  function Frames(rs: seq<LogRecord>): (f: seq<Bytes>)
    ensures |f| == |rs|
  {
    seq(|rs|, i requires 0 <= i < |rs| => Encode(rs[i]))
  }

  function EncodeAll(rs: seq<LogRecord>): Bytes {
    Concat(Frames(rs))
  }

  function Offset(rs: seq<LogRecord>, i: nat): nat
    requires i <= |rs|
  {
    |EncodeAll(rs[..i])|
  }

  predicate AllStorable(rs: seq<LogRecord>) {
    forall i :: 0 <= i < |rs| ==> Storable(rs[i])
  }

  // Appending a record appends its frame, and moves no earlier offset.
  lemma EncodeAllAppend(rs: seq<LogRecord>, r: LogRecord)
    ensures EncodeAll(rs + [r]) == EncodeAll(rs) + Encode(r)
    ensures Offset(rs + [r], |rs|) == |EncodeAll(rs)|
    ensures forall i :: 0 <= i <= |rs| ==> Offset(rs + [r], i) == Offset(rs, i)
  {
    hide Encode;
    assert Frames(rs + [r])[..|rs|] == Frames(rs);
    forall i | 0 <= i <= |rs|
      ensures Offset(rs + [r], i) == Offset(rs, i)
    {
      assert (rs + [r])[..i] == rs[..i];
    }
    assert rs[..|rs|] == rs;
  }

  lemma ReadAt(rs: seq<LogRecord>, i: nat)
    requires AllStorable(rs) && i < |rs|
    ensures Offset(rs, i) < Offset(rs, i + 1) <= |EncodeAll(rs)|
    ensures ReadLogRecord(EncodeAll(rs), Offset(rs, i)) == Got(rs[i], Offset(rs, i + 1) - Offset(rs, i))
  {
    hide Concat, Encode, ReadLogRecord;
    var f := Frames(rs);
    assert Frames(rs[..i]) == f[..i] && Frames(rs[..i + 1]) == f[..i + 1];
    ConcatAt(f, i);
    ConcatNext(f, i);
    ReadEncoded(Concat(f[..i]), rs[i], Concat(f[i + 1..]));
  }

  // Offsets tell records apart.
  lemma {:induction false} OffsetsIncrease(rs: seq<LogRecord>, i: nat, j: nat)
    requires AllStorable(rs) && i < j <= |rs|
    ensures Offset(rs, i) < Offset(rs, j)
    decreases j
  {
    hide EncodeAll, Encode, ReadLogRecord, Offset;
    ReadAt(rs, j - 1);
    if i < j - 1 { OffsetsIncrease(rs, i, j - 1); }
  }

  lemma OffsetEnd(rs: seq<LogRecord>)
    ensures Offset(rs, |rs|) == |EncodeAll(rs)| && Offset(rs, 0) == 0
  {
    assert rs[..|rs|] == rs;
  }

  // What a read at the n-th boundary of a file of records gives.
  lemma ReadBoundary(rs: seq<LogRecord>, n: nat)
    requires AllStorable(rs) && n <= |rs|
    ensures Offset(rs, n) <= |EncodeAll(rs)|
    ensures EncodeAll(rs) == [] <==> rs == []
    ensures n < |rs| ==> Offset(rs, n) < Offset(rs, n + 1)
    ensures ReadLogRecord(EncodeAll(rs), Offset(rs, n))
         == if rs == [] then IOError
            else if n == |rs| then EndOfFile
            else Got(rs[n], Offset(rs, n + 1) - Offset(rs, n))
  {
    hide Concat, Encode, DecodeHeader;
    OffsetEnd(rs);
    if rs != [] { OffsetsIncrease(rs, 0, |rs|); }
    if n < |rs| { ReadAt(rs, n); }
  }

  // The scan loop of recovery and merge, over one file.
  method ScanFile(file: Bytes, ghost rs: seq<LogRecord>) returns (ok: bool, got: seq<(nat, LogRecord)>)
    requires AllStorable(rs) && file == EncodeAll(rs)
    ensures ok <==> file != []
    ensures ok ==> |got| == |rs| && forall i :: 0 <= i < |rs| ==> got[i] == (Offset(rs, i), rs[i])
  {
    hide Concat, Encode, ReadLogRecord;
    var offset: nat := 0;
    got := [];
    OffsetEnd(rs);
    while true
      invariant |got| <= |rs| && offset == Offset(rs, |got|)
      invariant forall i :: 0 <= i < |got| ==> got[i] == (Offset(rs, i), rs[i])
      decreases |rs| - |got|
    {
      ReadBoundary(rs, |got|);
      var next := ReadLogRecord(file, offset);
      if next.EndOfFile? { return true, got; }
      if !next.Got? { return false, got; }
      got := got + [(offset, next.record)];
      offset := offset + next.size;
    }
  }

  /* ---- keys with a transaction id ---- */

  // What a C string keeps of a byte string.
  function CStr(s: Bytes): (r: Bytes)
    ensures |r| <= |s|
    ensures r == s[..|r|] && 0 !in r
    ensures |r| < |s| ==> s[|r|] == 0
  {
    if s == [] || s[0] == 0 then [] else [s[0]] + CStr(s[1..])
  }

  lemma CStrIdentity(s: Bytes)
    ensures CStr(s) == s <==> 0 !in s
    ensures CStr(CStr(s)) == CStr(s)
  {
    assert |CStr(CStr(s))| == |CStr(s)|;
  }

  // The id goes through a four-byte buffer.
  function TxnKey(key: Bytes, txn: nat): (r: Bytes)
    requires txn < TWO28
    ensures r != []
  {
    Varint(txn) + CStr(key)
  }

  method EncodeLogRecordWithTxnID(key: Bytes, txn: nat) returns (encoded: Bytes)
    requires txn < TWO28
    ensures encoded == TxnKey(key, txn)
  {
    var buf := EncodeVarint(txn);
    VarintLength(txn);
    assert |buf| <= 4;
    encoded := [];
    for i := 0 to |buf|
      invariant encoded == buf[..i]
    {
      encoded := encoded + [buf[i]];
    }
    encoded := encoded + CStr(key);
  }

  datatype KeyResult = BadKey | Key(key: Bytes, txn: nat)

  function DecodeTxnKey(encoded: Bytes): KeyResult {
    match DecodeVarint64(encoded)
    case Undefined => BadKey
    case Decoded(txn, len) => if len <= |encoded| then Key(encoded[len..], txn) else BadKey
  }

  lemma TxnKeyRoundTrip(key: Bytes, txn: nat)
    requires txn < TWO28
    ensures DecodeTxnKey(TxnKey(key, txn)) == Key(CStr(key), txn)
    ensures DecodeTxnKey(TxnKey(key, txn)) == Key(key, txn) <==> 0 !in key
  {
    Varint64RoundTrip(txn, CStr(key));
    CStrIdentity(key);
  }

  /* ---- index positions, as the hint file stores them ---- */

  datatype Pst = Pst(fid: nat, offset: nat)

  function EncodePst(p: Pst): Bytes {
    Varint(p.fid) + Varint(p.offset)
  }

  datatype PstResult = BadPst | GotPst(pst: Pst)

  function DecodePst(b: Bytes): PstResult {
    match DecodeVarint32(b)
    case Undefined => BadPst
    case Decoded(fid, len) =>
      if len > |b| then BadPst
      else
        match DecodeVarint64(b[len..])
        case Undefined => BadPst
        case Decoded(offset, _) => GotPst(Pst(fid, offset))
  }

  // A stored position is right exactly when its offset is below 2 GiB.
  lemma PstRoundTrip(p: Pst)
    requires p.fid < TWO32
    ensures DecodePst(EncodePst(p)) == GotPst(p) <==> p.offset < TWO31
  {
    Varint32RoundTrip(p.fid, Varint(p.offset));
    var rest := EncodePst(p)[|Varint(p.fid)|..];
    assert rest == Varint(p.offset) + [];
    Varint64RoundTrip(p.offset, []);
    if p.offset >= TWO31 { LargeOffset(p.offset); }
  }

  lemma LargeOffset(v: nat)
    requires v >= TWO31
    ensures var d := DecodeVarint64(Varint(v)); d.Undefined? || d.value != v
  {
    assert [] + Varint(v) + [] == Varint(v);
    Decode64Wrong(v, [], [], 0, 0);
  }
}
