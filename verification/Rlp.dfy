/**
 The RLP decoder of the converter, and the encoding of Appendix B of the Ethereum
 Yellow Paper that it inverts. The decoder is lenient: byte slices may run short, a list
 may end beyond its last item, and lengths need not be minimal. Only an offset outside
 the input is an error.
 */
module Rlp {
  import opened Bytes

  datatype Item = Str(data: seq<byte>) | List(items: seq<Item>)

  /** One decoded item and the offset just past it, or Python's `IndexError`. */
  datatype Decoded = Decoded(item: Item, next: nat) | IndexError

  datatype DecodedItems = Items(items: seq<Item>) | ItemsIndexError

  // ---------- decoding ----------

  /** What a prefix byte announces: a string or a list, and where its payload lies. */
  datatype Header = Header(isList: bool, start: nat, length: nat)

  function HeaderAt(b: seq<byte>, o: nat): (h: Header)
    requires o < |b|
    ensures o < h.start + h.length && o <= h.start
    ensures h.isList ==> o < h.start
  {
    var p := b[o];
    if p < 0x80 then Header(false, o, 1)
    else if p < 0xb8 then Header(false, o + 1, p - 0x80)
    else if p < 0xc0 then Header(false, o + 1 + (p - 0xb7), FromBE(Slice(b, o + 1, o + 1 + (p - 0xb7))))
    else if p < 0xf8 then Header(true, o + 1, p - 0xc0)
    else Header(true, o + 1 + (p - 0xf7), FromBE(Slice(b, o + 1, o + 1 + (p - 0xf7))))
  }

  function Remaining(b: seq<byte>, o: nat): nat {
    if o < |b| then |b| - o else 0
  }

  /** The item at offset `o`. Every success moves strictly forward, whatever lengths `b` claims. */
  function DecodeAt(b: seq<byte>, o: nat): (r: Decoded)
    ensures r.Decoded? ==> o < |b| && o < r.next
    decreases Remaining(b, o), 0
  {
    if |b| <= o then IndexError else
    var h := HeaderAt(b, o);
    if !h.isList then Decoded(Str(Slice(b, h.start, h.start + h.length)), h.start + h.length) else
    AsList(DecodeItems(b, h.start, h.start + h.length), h.start + h.length)
  }

  function AsList(r: DecodedItems, end: nat): Decoded {
    match r
    case Items(items) => Decoded(List(items), end)
    case ItemsIndexError => IndexError
  }

  /** The items from offset `cursor` until the cursor reaches or passes `end`. */
  function DecodeItems(b: seq<byte>, cursor: nat, end: nat): DecodedItems
    decreases Remaining(b, cursor), 1
  {
    if end <= cursor then Items([]) else
    match DecodeAt(b, cursor)
    case IndexError => ItemsIndexError
    case Decoded(item, next) =>
      match DecodeItems(b, next, end)
      case ItemsIndexError => ItemsIndexError
      case Items(rest) => Items([item] + rest)
  }

  function Prepend(items: seq<Item>, r: DecodedItems): DecodedItems {
    match r
    case Items(rest) => Items(items + rest)
    case ItemsIndexError => ItemsIndexError
  }

  method Decode(b: seq<byte>, o: nat) returns (r: Decoded)
    ensures r == DecodeAt(b, o)
    decreases Remaining(b, o), 1
  {
    if |b| <= o {
      return IndexError;
    }
    var start, length := ReadPrefix(b, o);
    if b[o] < 0xc0 {
      return Decoded(Str(Slice(b, start, start + length)), start + length);
    }
    r := DecodeList(b, o, start, start + length);
  }

  /** The five prefix cases: where the payload of the item at `o` starts, and its claimed length. */
  method ReadPrefix(b: seq<byte>, o: nat) returns (start: nat, length: nat)
    requires o < |b|
    ensures HeaderAt(b, o) == Header(0xc0 <= b[o], start, length)
  {
    var prefix := b[o];
    if prefix < 0x80 {
      return o, 1;
    }
    if prefix < 0xb8 {
      return o + 1, prefix - 0x80;
    }
    if prefix < 0xc0 {
      var lenLen := prefix - 0xb7;
      return o + 1 + lenLen, FromBE(Slice(b, o + 1, o + 1 + lenLen));
    }
    if prefix < 0xf8 {
      return o + 1, prefix - 0xc0;
    }
    var lenLen := prefix - 0xf7;
    return o + 1 + lenLen, FromBE(Slice(b, o + 1, o + 1 + lenLen));
  }

  /** The loop both list forms run: items from `start` until the cursor reaches `end`. */
  method DecodeList(b: seq<byte>, ghost o: nat, start: nat, end: nat) returns (r: Decoded)
    requires o < start && o < |b|
    ensures r == AsList(DecodeItems(b, start, end), end)
    decreases Remaining(b, o), 0
  {
    var items, cursor := [], start;
    while cursor < end
      invariant start <= cursor
      invariant DecodeItems(b, start, end) == Prepend(items, DecodeItems(b, cursor, end))
      decreases |b| - cursor
    {
      var d := Decode(b, cursor);
      if d.IndexError? {
        return IndexError;
      }
      assert forall rest :: items + ([d.item] + rest) == items + [d.item] + rest;
      items, cursor := items + [d.item], d.next;
    }
    assert items + [] == items;
    return Decoded(List(items), end);
  }

  /** A byte below 0x80 stands for itself. */
  lemma ByteStandsForItself(b: seq<byte>, o: nat)
    requires o < |b| && b[o] < 0x80
    ensures DecodeAt(b, o) == Decoded(Str([b[o]]), o + 1)
  {
    hide DecodeAt, FromBE, Slice;
    DecodedByHeader(b, o);
    SliceRunsShort(b, o, o + 1);
    assert b[o..o + 1] == [b[o]];
  }

  /** A short string is as long as its prefix says, or as what is there of it. */
  lemma ShortStringRunsShort(b: seq<byte>, o: nat, n: nat)
    requires o < |b| && b[o] == 0x80 + n && n < 56
    ensures DecodeAt(b, o)
         == Decoded(Str(if o + 1 + n <= |b| then b[o + 1..o + 1 + n] else b[o + 1..]), o + 1 + n)
  {
    hide DecodeAt, FromBE, Slice;
    DecodedByHeader(b, o);
    SliceRunsShort(b, o + 1, o + 1 + n);
  }

  /** A string never fails, and a short list ends where it claims to, even before the end of its last item. */
  lemma EndsWhereClaimed(b: seq<byte>, o: nat)
    requires o < |b|
    ensures b[o] < 0xc0 ==> DecodeAt(b, o).Decoded?
    ensures 0xc0 <= b[o] < 0xf8 && DecodeAt(b, o).Decoded? ==> DecodeAt(b, o).next == o + 1 + (b[o] - 0xc0)
  {
    hide DecodeAt, FromBE, Slice;
    DecodedByHeader(b, o);
  }

  lemma DecodedByHeader(b: seq<byte>, o: nat)
    requires o < |b|
    ensures var h := HeaderAt(b, o);
            (!h.isList ==> DecodeAt(b, o) == Decoded(Str(Slice(b, h.start, h.start + h.length)), h.start + h.length))
            && (h.isList && DecodeAt(b, o).Decoded? ==> DecodeAt(b, o).next == h.start + h.length)
  {
    hide HeaderAt, DecodeItems;
  }

  lemma SliceRunsShort(b: seq<byte>, lo: nat, hi: nat)
    requires lo <= hi && lo <= |b|
    ensures Slice(b, lo, hi) == if hi <= |b| then b[lo..hi] else b[lo..]
  {
  }

  /** The items of a list are decoded one after another, each where the one before it ended. */
  lemma ItemsFollowEachOther(b: seq<byte>, c: nat, end: nat)
    requires DecodeItems(b, c, end).Items?
    ensures var items := DecodeItems(b, c, end).items;
            if end <= c then items == []
            else
              var d := DecodeAt(b, c);
              d.Decoded? && DecodeItems(b, d.next, end).Items?
              && items == [d.item] + DecodeItems(b, d.next, end).items
  {
  }

  /** The one failure: an item that begins at or after the end of the input, or in a list that has such an item. */
  lemma ListFailsExactlyIf(b: seq<byte>, c: nat, end: nat)
    ensures DecodeItems(b, c, end).ItemsIndexError? <==>
            c < end && (DecodeAt(b, c).IndexError? || DecodeItems(b, DecodeAt(b, c).next, end).ItemsIndexError?)
    ensures |b| <= c < end ==> DecodeItems(b, c, end).ItemsIndexError?
  {
  }

  // ---------- encoding (Appendix B of the Yellow Paper) ----------

  /** 2^64: the first length Appendix B cannot write down. */
  const LENGTH_LIMIT: nat := Pow256(8)

  function EncodeHeader(length: nat, offset: byte): seq<byte>
    requires length < LENGTH_LIMIT && offset in {0x80, 0xc0}
  {
    if length < 56 then [offset + length]
    else
      ToBELength(length, 8);
      [offset + 55 + |ToBE(length)|] + ToBE(length)
  }

  function EncodeStr(s: seq<byte>): seq<byte>
    requires |s| < LENGTH_LIMIT
  {
    if |s| == 1 && s[0] < 0x80 then s else EncodeHeader(|s|, 0x80) + s
  }

  /** Whether every payload inside `t` is shorter than 2^64 bytes. */
  predicate Encodable(t: Item)
    decreases t, 0
  {
    match t
    case Str(s) => |s| < LENGTH_LIMIT
    case List(items) => AllEncodable(items) && |EncodeItems(items)| < LENGTH_LIMIT
  }

  predicate AllEncodable(items: seq<Item>)
    decreases items, 0
  {
    items == [] || (Encodable(items[0]) && AllEncodable(items[1..]))
  }

  function Encode(t: Item): seq<byte>
    requires Encodable(t)
    decreases t, 1
  {
    match t
    case Str(s) => EncodeStr(s)
    case List(items) => EncodeHeader(|EncodeItems(items)|, 0xc0) + EncodeItems(items)
  }

  function EncodeItems(items: seq<Item>): seq<byte>
    requires AllEncodable(items)
    decreases items, 1
  {
    if items == [] then [] else Encode(items[0]) + EncodeItems(items[1..])
  }

  // ---------- the decoder inverts the encoding ----------

  /** `part` occurs in `b` at offset `o`. */
  predicate Occurs(b: seq<byte>, o: nat, part: seq<byte>) {
    o + |part| <= |b| && b[o..o + |part|] == part
  }

  lemma OccursSplit(b: seq<byte>, o: nat, first: seq<byte>, second: seq<byte>)
    requires Occurs(b, o, first + second)
    ensures Occurs(b, o, first) && Occurs(b, o + |first|, second)
  {
    var both := first + second;
    assert b[o..o + |first|] == both[..|first|] == first;
    assert b[o + |first|..o + |both|] == both[|first|..] == second;
  }

  lemma HeaderRoundTrip(b: seq<byte>, o: nat, length: nat, offset: byte)
    requires length < LENGTH_LIMIT && offset in {0x80, 0xc0}
    requires Occurs(b, o, EncodeHeader(length, offset))
    ensures o < |b|
    ensures HeaderAt(b, o) == Header(offset == 0xc0, o + |EncodeHeader(length, offset)|, length)
  {
    hide Pow256, FromBE, ToBE, Slice;
    var h := EncodeHeader(length, offset);
    assert b[o] == b[o..o + |h|][0] == h[0];
    if 56 <= length {
      var digits := ToBE(length);
      FromToBE(length);
      ToBELength(length, 8);
      OccursSplit(b, o, [offset + 55 + |digits|], digits);
      SliceRunsShort(b, o + 1, o + 1 + |digits|);
    }
  }

  lemma StrRoundTrip(s: seq<byte>, b: seq<byte>, o: nat)
    requires |s| < LENGTH_LIMIT && Occurs(b, o, EncodeStr(s))
    ensures DecodeAt(b, o) == Decoded(Str(s), o + |EncodeStr(s)|)
  {
    if |s| == 1 && s[0] < 0x80 {
      assert b[o] == b[o..o + 1][0] == s[0];
    } else {
      PayloadRoundTrip(b, o, s, 0x80);
    }
  }

  lemma PayloadRoundTrip(b: seq<byte>, o: nat, payload: seq<byte>, offset: byte)
    requires |payload| < LENGTH_LIMIT && offset in {0x80, 0xc0}
    requires Occurs(b, o, EncodeHeader(|payload|, offset) + payload)
    ensures o < |b|
    ensures var h := HeaderAt(b, o);
            h == Header(offset == 0xc0, o + |EncodeHeader(|payload|, offset)|, |payload|)
            && Occurs(b, h.start, payload)
  {
    OccursSplit(b, o, EncodeHeader(|payload|, offset), payload);
    HeaderRoundTrip(b, o, |payload|, offset);
  }

  /** Wherever an encoding occurs, decoding there returns the tree and the offset just past it. */
  lemma {:induction false} DecodeInvertsEncode(t: Item, b: seq<byte>, o: nat)
    requires Encodable(t) && Occurs(b, o, Encode(t))
    ensures DecodeAt(b, o) == Decoded(t, o + |Encode(t)|)
    decreases t, 0
  {
    match t
    case Str(s) =>
      StrRoundTrip(s, b, o);
    case List(items) =>
      PayloadRoundTrip(b, o, EncodeItems(items), 0xc0);
      DecodeItemsInvertsEncodeItems(items, b, HeaderAt(b, o).start);
  }

  lemma {:induction false} DecodeItemsInvertsEncodeItems(items: seq<Item>, b: seq<byte>, c: nat)
    requires AllEncodable(items) && Occurs(b, c, EncodeItems(items))
    ensures DecodeItems(b, c, c + |EncodeItems(items)|) == Items(items)
    decreases items, 1
  {
    hide Encode, DecodeAt;
    if items != [] {
      var first, rest := Encode(items[0]), EncodeItems(items[1..]);
      OccursSplit(b, c, first, rest);
      DecodeInvertsEncode(items[0], b, c);
      DecodeItemsInvertsEncodeItems(items[1..], b, c + |first|);
      assert [items[0]] + items[1..] == items;
    }
  }

  /** The round trip with any bytes before and any bytes after the encoding. */
  lemma RoundTrip(prefix: seq<byte>, t: Item, suffix: seq<byte>)
    requires Encodable(t)
    ensures DecodeAt(prefix + Encode(t) + suffix, |prefix|) == Decoded(t, |prefix| + |Encode(t)|)
  {
    var b := prefix + Encode(t) + suffix;
    assert b[|prefix|..|prefix| + |Encode(t)|] == Encode(t);
    DecodeInvertsEncode(t, b, |prefix|);
  }

  /** No encoding is a proper prefix of another, and different trees have different encodings. */
  lemma PrefixFree(t: Item, u: Item, s: seq<byte>, r: seq<byte>)
    requires Encodable(t) && Encodable(u)
    requires Encode(t) + s == Encode(u) + r
    ensures t == u && s == r
  {
    DecodeFront(t, s);
    DecodeFront(u, r);
    var e, f := Encode(t), Encode(u);
    assert (e + s)[|e|..] == s && (f + r)[|f|..] == r;
  }

  lemma DecodeFront(t: Item, s: seq<byte>)
    requires Encodable(t)
    ensures DecodeAt(Encode(t) + s, 0) == Decoded(t, |Encode(t)|)
  {
    DecodeInvertsEncode(t, Encode(t) + s, 0);
  }
}
