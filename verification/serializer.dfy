// The serializer: what a type looks like decides how its values are written
// and read back.

module Serializers {
  import opened Coding

  datatype Schema =
    | Number(width: nat)                 // fixed-width arithmetic type, little-endian
    | Text                               // std::string
    | Sequence(item: Schema)             // vector, deque, list, forward_list
    | Record(fields: seq<Schema>)        // tuples, and structs field by field

  datatype Val =
    | Num(n: nat)                        // the value's bits
    | Chars(s: Bytes)
    | Items(vs: seq<Val>)

  /* ---- numbers ---- */

  function Bound(width: nat): nat {
    if width == 0 then 1 else 256 * Bound(width - 1)
  }

  function Little(n: nat, width: nat): (r: Bytes)
    ensures |r| == width
  {
    if width == 0 then [] else [n % 256] + Little(n / 256, width - 1)
  }

  function FromLittle(bs: Bytes): (n: nat)
    ensures n < Bound(|bs|)
  {
    if bs == [] then 0 else bs[0] + 256 * FromLittle(bs[1..])
  }

  // Reading back gives the low bytes of what was written.
  lemma {:induction false} LittleRoundTrip(n: nat, width: nat)
    ensures n < Bound(width) ==> FromLittle(Little(n, width)) == n
  {
    if width > 0 { LittleRoundTrip(n / 256, width - 1); }
  }

  // The last byte counts most.
  lemma {:induction false} LastByteCountsMost(bs: Bytes, b: byte)
    ensures FromLittle(bs + [b]) == FromLittle(bs) + b * Bound(|bs|)
  {
    if bs != [] {
      LastByteCountsMost(bs[1..], b);
      assert (bs + [b])[1..] == bs[1..] + [b];
      var t := Bound(|bs| - 1);
      assert 256 * (b * t) == b * (256 * t);
    } else {
      assert [b][1..] == [];
    }
  }

  lemma Bounds()
    ensures Bound(4) == TWO32 && Bound(8) == TWO64
  {
  }

  /* ---- values of a schema ---- */

  predicate Typed(s: Schema, v: Val)
    decreases s
  {
    match s
    case Number(w) => v.Num? && v.n < Bound(w)
    case Text => v.Chars?
    case Sequence(item) => v.Items? && forall i :: 0 <= i < |v.vs| ==> Typed(item, v.vs[i])
    case Record(fields) =>
      v.Items? && |v.vs| == |fields| && forall i :: 0 <= i < |fields| ==> Typed(fields[i], v.vs[i])
  }

  // No string and no sequence is longer than its size field can say.
  predicate Fits(s: Schema, v: Val)
    requires Typed(s, v)
    decreases s
  {
    match s
    case Number(_) => true
    case Text => |v.s| < TWO64
    case Sequence(item) => |v.vs| < TWO32 && forall i :: 0 <= i < |v.vs| ==> Fits(item, v.vs[i])
    case Record(fields) => forall i :: 0 <= i < |fields| ==> Fits(fields[i], v.vs[i])
  }

  /* ---- writing ---- */

  function Encode(s: Schema, v: Val): Bytes
    requires Typed(s, v)
    decreases s, 0
  {
    match s
    case Number(w) => Little(v.n, w)
    case Text => Little(|v.s| % TWO64, 8) + v.s
    case Sequence(item) => Little(|v.vs| % TWO32, 4) + EncodeItems(item, v.vs)
    case Record(fields) => EncodeFields(fields, v.vs)
  }

  function EncodeItems(item: Schema, vs: seq<Val>): Bytes
    requires forall i :: 0 <= i < |vs| ==> Typed(item, vs[i])
    decreases item, |vs| + 1
  {
    if vs == [] then [] else Encode(item, vs[0]) + EncodeItems(item, vs[1..])
  }

  function EncodeFields(fields: seq<Schema>, vs: seq<Val>): Bytes
    requires |vs| == |fields| && forall i :: 0 <= i < |fields| ==> Typed(fields[i], vs[i])
    decreases fields
  {
    if fields == [] then [] else Encode(fields[0], vs[0]) + EncodeFields(fields[1..], vs[1..])
  }

  /* ---- reading ---- */

  datatype Decoded = Got(v: Val, rest: Bytes) | PastEnd

  datatype DecodedItems = GotItems(vs: seq<Val>, rest: Bytes) | ItemsPastEnd

  function Decode(s: Schema, buf: Bytes): Decoded
    decreases s, 0
  {
    match s
    case Number(w) => if |buf| < w then PastEnd else Got(Num(FromLittle(buf[..w])), buf[w..])
    case Text =>
      if |buf| < 8 then PastEnd
      else
        var n := FromLittle(buf[..8]);
        if |buf| - 8 < n then PastEnd else Got(Chars(buf[8..8 + n]), buf[8 + n..])
    case Sequence(item) =>
      if |buf| < 4 then PastEnd
      else
        (match DecodeItems(item, FromLittle(buf[..4]), buf[4..])
         case ItemsPastEnd => PastEnd
         case GotItems(vs, rest) => Got(Items(vs), rest))
    case Record(fields) =>
      match DecodeFields(fields, buf)
      case ItemsPastEnd => PastEnd
      case GotItems(vs, rest) => Got(Items(vs), rest)
  }

  function DecodeItems(item: Schema, n: nat, buf: Bytes): DecodedItems
    decreases item, n + 1
  {
    if n == 0 then GotItems([], buf)
    else
      match Decode(item, buf)
      case PastEnd => ItemsPastEnd
      case Got(v, rest) =>
        match DecodeItems(item, n - 1, rest)
        case ItemsPastEnd => ItemsPastEnd
        case GotItems(vs, end) => GotItems([v] + vs, end)
  }

  function DecodeFields(fields: seq<Schema>, buf: Bytes): DecodedItems
    decreases fields
  {
    if fields == [] then GotItems([], buf)
    else
      match Decode(fields[0], buf)
      case PastEnd => ItemsPastEnd
      case Got(v, rest) =>
        match DecodeFields(fields[1..], rest)
        case ItemsPastEnd => ItemsPastEnd
        case GotItems(vs, end) => GotItems([v] + vs, end)
  }

  // The items of a sequence, and the fields of a record, stand one behind the
  // other in their order.
  lemma {:induction false} ItemsInOrder(item: Schema, a: seq<Val>, b: seq<Val>)
    requires (forall i :: 0 <= i < |a| ==> Typed(item, a[i])) && (forall i :: 0 <= i < |b| ==> Typed(item, b[i]))
    ensures EncodeItems(item, a + b) == EncodeItems(item, a) + EncodeItems(item, b)
    decreases |a|
  {
    hide Encode, Typed;
    if a == [] {
      assert a + b == b;
    } else {
      assert (a + b)[1..] == a[1..] + b;
      ItemsInOrder(item, a[1..], b);
    }
  }

  lemma {:induction false} FieldsInOrder(fs: seq<Schema>, gs: seq<Schema>, a: seq<Val>, b: seq<Val>)
    requires |fs| == |a| && |gs| == |b|
    requires (forall i :: 0 <= i < |a| ==> Typed(fs[i], a[i])) && (forall i :: 0 <= i < |b| ==> Typed(gs[i], b[i]))
    ensures EncodeFields(fs + gs, a + b) == EncodeFields(fs, a) + EncodeFields(gs, b)
    decreases |a|
  {
    hide Encode, Typed;
    if a == [] {
      assert a + b == b && fs + gs == gs;
    } else {
      assert (a + b)[1..] == a[1..] + b && (fs + gs)[1..] == fs[1..] + gs;
      FieldsInOrder(fs[1..], gs, a[1..], b);
    }
  }

  /* ---- the round trip ---- */

  lemma NumberAhead(n: nat, w: nat, rest: Bytes)
    requires n < Bound(w)
    ensures var b := Little(n, w) + rest;
            |b| >= w && FromLittle(b[..w]) == n && b[w..] == rest
  {
    hide Little, FromLittle;
    LittleRoundTrip(n, w);
    assert (Little(n, w) + rest)[..w] == Little(n, w);
  }

  lemma {:induction false} EncodeDecode(s: Schema, v: Val, rest: Bytes)
    requires Typed(s, v) && Fits(s, v)
    ensures Decode(s, Encode(s, v) + rest) == Got(v, rest)
    decreases s, 0
  {
    hide Little, FromLittle, Bound;
    Bounds();
    match s
    case Number(w) => NumberAhead(v.n, w, rest);
    case Text =>
      NumberAhead(|v.s|, 8, v.s + rest);
      assert Encode(s, v) + rest == Little(|v.s|, 8) + (v.s + rest);
      assert (v.s + rest)[..|v.s|] == v.s && (v.s + rest)[|v.s|..] == rest;
      var b := Encode(s, v) + rest;
      assert b[8..8 + |v.s|] == b[8..][..|v.s|] && b[8 + |v.s|..] == b[8..][|v.s|..];
    case Sequence(item) =>
      var tail := EncodeItems(item, v.vs) + rest;
      NumberAhead(|v.vs|, 4, tail);
      assert Encode(s, v) + rest == Little(|v.vs|, 4) + tail;
      ItemsEncodeDecode(item, v.vs, rest);
    case Record(fields) => FieldsEncodeDecode(fields, v.vs, rest);
  }

  lemma {:induction false} ItemsEncodeDecode(item: Schema, vs: seq<Val>, rest: Bytes)
    requires forall i :: 0 <= i < |vs| ==> Typed(item, vs[i]) && Fits(item, vs[i])
    ensures DecodeItems(item, |vs|, EncodeItems(item, vs) + rest) == GotItems(vs, rest)
    decreases item, |vs| + 1
  {
    hide Decode, Encode, Fits, Typed;
    if vs == [] {
      assert [] + rest == rest;
    } else {
      var tail := EncodeItems(item, vs[1..]) + rest;
      EncodeDecode(item, vs[0], tail);
      assert EncodeItems(item, vs) + rest == Encode(item, vs[0]) + tail;
      ItemsEncodeDecode(item, vs[1..], rest);
    }
  }

  lemma {:induction false} FieldsEncodeDecode(fields: seq<Schema>, vs: seq<Val>, rest: Bytes)
    requires |vs| == |fields| && forall i :: 0 <= i < |fields| ==> Typed(fields[i], vs[i]) && Fits(fields[i], vs[i])
    ensures DecodeFields(fields, EncodeFields(fields, vs) + rest) == GotItems(vs, rest)
    decreases fields
  {
    hide Decode, Encode, Fits, Typed;
    if fields == [] {
      assert [] + rest == rest;
    } else {
      var tail := EncodeFields(fields[1..], vs[1..]) + rest;
      EncodeDecode(fields[0], vs[0], tail);
      assert EncodeFields(fields, vs) + rest == Encode(fields[0], vs[0]) + tail;
      FieldsEncodeDecode(fields[1..], vs[1..], rest);
    }
  }

  /* ---- what every decoded value is like ---- */

  lemma {:induction false} DecodedFits(s: Schema, buf: Bytes)
    ensures Decode(s, buf).Got? ==> Typed(s, Decode(s, buf).v) && Fits(s, Decode(s, buf).v)
    decreases s, 0
  {
    hide FromLittle, Bound;
    Bounds();
    match s
    case Number(w) =>
    case Text =>
    case Sequence(item) => if |buf| >= 4 { ItemsFit(item, FromLittle(buf[..4]), buf[4..]); }
    case Record(fields) => FieldsFit(fields, buf);
  }

  lemma {:induction false} ItemsFit(item: Schema, n: nat, buf: Bytes)
    ensures var r := DecodeItems(item, n, buf);
            r.GotItems? ==> |r.vs| == n && forall i :: 0 <= i < n ==> Typed(item, r.vs[i]) && Fits(item, r.vs[i])
    decreases item, n + 1
  {
    hide Decode, Fits, Typed;
    if n > 0 {
      DecodedFits(item, buf);
      match Decode(item, buf)
      case PastEnd =>
      case Got(v, rest) => ItemsFit(item, n - 1, rest);
    }
  }

  lemma {:induction false} FieldsFit(fields: seq<Schema>, buf: Bytes)
    ensures var r := DecodeFields(fields, buf);
            r.GotItems? ==>
              |r.vs| == |fields| && forall i :: 0 <= i < |fields| ==> Typed(fields[i], r.vs[i]) && Fits(fields[i], r.vs[i])
    decreases fields
  {
    hide Decode, Fits, Typed;
    if fields != [] {
      DecodedFits(fields[0], buf);
      match Decode(fields[0], buf)
      case PastEnd =>
      case Got(v, rest) => FieldsFit(fields[1..], rest);
    }
  }

  // For every schema and every value of it: what was written is read back, up
  // to exactly its end, if and only if every length fits its size field.
  lemma RoundTripExact(s: Schema, v: Val, rest: Bytes)
    requires Typed(s, v)
    ensures Decode(s, Encode(s, v) + rest) == Got(v, rest) <==> Fits(s, v)
  {
    hide Decode, Encode;
    DecodedFits(s, Encode(s, v) + rest);
    if Fits(s, v) { EncodeDecode(s, v, rest); }
  }

  /* ---- the object: a buffer and a read position ---- */

  datatype Read = Value(v: Val) | OutOfBuffer

  class Serializer {
    var buffer: Bytes
    var pos: nat

    ghost predicate Valid()
      reads this
    {
      pos <= |buffer|
    }

    ghost function Rest(): Bytes
      requires Valid()
      reads this
    {
      buffer[pos..]
    }

    constructor (data: Bytes)
      ensures buffer == data && pos == 0
    {
      buffer, pos := data, 0;
    }

    method Serialize(s: Schema, v: Val)
      requires Typed(s, v)
      modifies this`buffer
      ensures buffer == old(buffer) + Encode(s, v)
      decreases s, 0
    {
      match s
      case Number(w) => SerializeNumber(v.n, w);
      case Text =>
        SerializeNumber(|v.s| % TWO64, 8);
        buffer := buffer + v.s;
      case Sequence(item) =>
        SerializeNumber(|v.vs| % TWO32, 4);
        SerializeItems(item, v.vs);
      case Record(fields) => SerializeFields(fields, v.vs);
    }

    method SerializeItems(item: Schema, vs: seq<Val>)
      requires forall i :: 0 <= i < |vs| ==> Typed(item, vs[i])
      modifies this`buffer
      ensures buffer == old(buffer) + EncodeItems(item, vs)
      decreases item, 1
    {
      hide Typed, Encode;
      assert vs[0..] == vs;
      for i := 0 to |vs|
        invariant buffer + EncodeItems(item, vs[i..]) == old(buffer) + EncodeItems(item, vs)
      {
        assert vs[i..][0] == vs[i] && vs[i..][1..] == vs[i + 1..];
        Serialize(item, vs[i]);
      }
    }

    method SerializeFields(fields: seq<Schema>, vs: seq<Val>)
      requires |vs| == |fields| && forall i :: 0 <= i < |fields| ==> Typed(fields[i], vs[i])
      modifies this`buffer
      ensures buffer == old(buffer) + EncodeFields(fields, vs)
      decreases fields
    {
      hide Typed, Encode;
      assert fields[0..] == fields && vs[0..] == vs;
      for i := 0 to |fields|
        invariant buffer + EncodeFields(fields[i..], vs[i..]) == old(buffer) + EncodeFields(fields, vs)
      {
        assert fields[i..][0] == fields[i] && fields[i..][1..] == fields[i + 1..];
        assert vs[i..][0] == vs[i] && vs[i..][1..] == vs[i + 1..];
        Serialize(fields[i], vs[i]);
      }
    }

    // The object's own bytes, low byte first.
    method SerializeNumber(n: nat, width: nat)
      modifies this`buffer
      ensures buffer == old(buffer) + Little(n, width)
    {
      var m := n;
      for i := 0 to width
        invariant buffer + Little(m, width - i) == old(buffer) + Little(n, width)
      {
        buffer := buffer + [m % 256];
        m := m / 256;
      }
    }

    method DeserializeBytes(n: nat) returns (ok: bool, bytes: Bytes)
      requires Valid()
      modifies this`pos
      ensures Valid() && (ok <==> n <= |old(Rest())|)
      ensures ok ==> bytes == old(Rest())[..n] && Rest() == old(Rest())[n..]
    {
      if |buffer| - pos < n { return false, []; }
      bytes := buffer[pos..pos + n];
      pos := pos + n;
      ok := true;
    }

    method Deserialize(s: Schema) returns (r: Read)
      requires Valid()
      modifies this`pos
      ensures Valid()
      ensures match Decode(s, old(Rest()))
              case Got(v, rest) => r == Value(v) && Rest() == rest
              case PastEnd => r == OutOfBuffer
      decreases s, 0
    {
      hide FromLittle;
      ghost var buf := Rest();
      match s
      case Number(w) =>
        var ok, bytes := DeserializeBytes(w);
        return if ok then Value(Num(FromLittle(bytes))) else OutOfBuffer;
      case Text =>
        var ok, size := DeserializeBytes(8);
        if !ok { return OutOfBuffer; }
        var n := FromLittle(size);
        var more, bytes := DeserializeBytes(n);
        if !more { return OutOfBuffer; }
        assert buf[8..][..n] == buf[8..8 + n] && buf[8..][n..] == buf[8 + n..];
        return Value(Chars(bytes));
      case Sequence(item) =>
        var ok, size := DeserializeBytes(4);
        if !ok { return OutOfBuffer; }
        r := DeserializeItems(item, FromLittle(size));
      case Record(fields) => r := DeserializeFields(fields);
    }

    method DeserializeItems(item: Schema, n: nat) returns (r: Read)
      requires Valid()
      modifies this`pos
      ensures Valid()
      ensures match DecodeItems(item, n, old(Rest()))
              case GotItems(vs, rest) => r == Value(Items(vs)) && Rest() == rest
              case ItemsPastEnd => r == OutOfBuffer
      decreases item, 1
    {
      hide Decode, DecodeItems, After;
      ghost var all := DecodeItems(item, n, Rest());
      var vs: seq<Val> := [];
      NothingBefore(all);
      for i := 0 to n
        invariant Valid() && all == After(vs, DecodeItems(item, n - i, Rest()))
      {
        OneItem(vs, item, n - i, Rest());
        var v := Deserialize(item);
        if v.OutOfBuffer? { return OutOfBuffer; }
        vs := vs + [v.v];
      }
      NoMoreItems(vs, item, Rest());
      return Value(Items(vs));
    }

    method DeserializeFields(fields: seq<Schema>) returns (r: Read)
      requires Valid()
      modifies this`pos
      ensures Valid()
      ensures match DecodeFields(fields, old(Rest()))
              case GotItems(vs, rest) => r == Value(Items(vs)) && Rest() == rest
              case ItemsPastEnd => r == OutOfBuffer
      decreases fields
    {
      hide Decode, DecodeFields, After;
      ghost var all := DecodeFields(fields, Rest());
      var vs: seq<Val> := [];
      NothingBefore(all);
      assert fields[0..] == fields;
      for i := 0 to |fields|
        invariant Valid() && all == After(vs, DecodeFields(fields[i..], Rest()))
      {
        assert fields[i..][0] == fields[i] && fields[i..][1..] == fields[i + 1..];
        OneField(vs, fields[i..], Rest());
        var v := Deserialize(fields[i]);
        if v.OutOfBuffer? { return OutOfBuffer; }
        vs := vs + [v.v];
      }
      assert fields[|fields|..] == [];
      NoMoreFields(vs, Rest());
      return Value(Items(vs));
    }
  }

  ghost function After(vs: seq<Val>, r: DecodedItems): DecodedItems {
    match r
    case ItemsPastEnd => ItemsPastEnd
    case GotItems(more, rest) => GotItems(vs + more, rest)
  }

  lemma NothingBefore(r: DecodedItems)
    ensures After([], r) == r
  {
    if r.GotItems? { assert [] + r.vs == r.vs; }
  }

  lemma OneItem(vs: seq<Val>, item: Schema, n: nat, buf: Bytes)
    requires n > 0
    ensures After(vs, DecodeItems(item, n, buf)) ==
      match Decode(item, buf)
      case PastEnd => ItemsPastEnd
      case Got(v, rest) => After(vs + [v], DecodeItems(item, n - 1, rest))
  {
    hide Decode;
    match Decode(item, buf)
    case PastEnd =>
    case Got(v, rest) =>
      var more := DecodeItems(item, n - 1, rest);
      if more.GotItems? { assert vs + ([v] + more.vs) == vs + [v] + more.vs; }
  }

  lemma NoMoreItems(vs: seq<Val>, item: Schema, buf: Bytes)
    ensures After(vs, DecodeItems(item, 0, buf)) == GotItems(vs, buf)
  {
    assert vs + [] == vs;
  }

  lemma OneField(vs: seq<Val>, fields: seq<Schema>, buf: Bytes)
    requires fields != []
    ensures After(vs, DecodeFields(fields, buf)) ==
      match Decode(fields[0], buf)
      case PastEnd => ItemsPastEnd
      case Got(v, rest) => After(vs + [v], DecodeFields(fields[1..], rest))
  {
    hide Decode;
    match Decode(fields[0], buf)
    case PastEnd =>
    case Got(v, rest) =>
      var more := DecodeFields(fields[1..], rest);
      if more.GotItems? { assert vs + ([v] + more.vs) == vs + [v] + more.vs; }
  }

  lemma NoMoreFields(vs: seq<Val>, buf: Bytes)
    ensures After(vs, DecodeFields([], buf)) == GotItems(vs, buf)
  {
    assert vs + [] == vs;
  }

  /* ---- the Raft messages ---- */

  const INT32 := Number(4)
  const BOOL := Number(1)

  const REQUEST_VOTE_ARGS := Record([INT32, INT32, INT32, INT32])
  const REQUEST_VOTE_REPLY := Record([INT32, BOOL])

  function LogEntry(command: Schema): Schema {
    Record([command, INT32])
  }

  function AppendEntriesArgs(command: Schema): Schema {
    Record([INT32, INT32, INT32, INT32, Sequence(LogEntry(command)), INT32])
  }

  // Nothing is written for the reply, whatever its term and its success say.
  const APPEND_ENTRIES_REPLY := Record([])

  lemma VoteMessagesRoundTrip(args: Val, reply: Val, rest: Bytes)
    requires Typed(REQUEST_VOTE_ARGS, args) && Typed(REQUEST_VOTE_REPLY, reply)
    ensures Decode(REQUEST_VOTE_ARGS, Encode(REQUEST_VOTE_ARGS, args) + rest) == Got(args, rest)
    ensures Decode(REQUEST_VOTE_REPLY, Encode(REQUEST_VOTE_REPLY, reply) + rest) == Got(reply, rest)
  {
    hide Decode, Encode;
    RoundTripExact(REQUEST_VOTE_ARGS, args, rest);
    RoundTripExact(REQUEST_VOTE_REPLY, reply, rest);
  }

  // Append requests round trip exactly when their entries do: commands that fit
  // and fewer than 2^32 of them.
  lemma AppendArgsRoundTrip(command: Schema, args: Val, rest: Bytes)
    requires Typed(AppendEntriesArgs(command), args)
    ensures Decode(AppendEntriesArgs(command), Encode(AppendEntriesArgs(command), args) + rest) == Got(args, rest) <==>
            Fits(Sequence(LogEntry(command)), args.vs[4])
  {
    hide Decode, Encode;
    RoundTripExact(AppendEntriesArgs(command), args, rest);
  }

  // What a reader finds in a reply does not depend on what was sent.
  lemma AppendReplyIsEmpty(reply: Val, rest: Bytes)
    requires Typed(APPEND_ENTRIES_REPLY, reply)
    ensures Encode(APPEND_ENTRIES_REPLY, reply) == []
    ensures Decode(APPEND_ENTRIES_REPLY, rest) == Got(Items([]), rest)
  {
  }
}
