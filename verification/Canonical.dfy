/** Where the lenient decoder is exact: the bytes it reads are the ones an encoder writes. */
module Canonical {
  import opened Bytes
  import opened Rlp

  function EndAt(b: seq<byte>, o: nat): (e: nat)
    requires o < |b|
    ensures o < e
  {
    HeaderAt(b, o).start + HeaderAt(b, o).length
  }

  predicate IsLong(prefix: byte) {
    0xb8 <= prefix < 0xc0 || 0xf8 <= prefix
  }

  /**
   The payload lies inside `b`; a byte below 0x80 stands for itself; and a long form has a
   length that needs it, without leading zeros.
   */
  predicate SoundHeader(b: seq<byte>, o: nat)
    requires o < |b|
  {
    EndAt(b, o) <= |b|
    && (b[o] == 0x81 ==> 0x80 <= b[o + 1])
    && (IsLong(b[o]) ==> 56 <= HeaderAt(b, o).length && b[o + 1] != 0)
  }

  /** A check of the bytes alone: every header is sound, and every list ends where its last item does. */
  predicate CanonicalAt(b: seq<byte>, o: nat)
    decreases Remaining(b, o), 0
  {
    o < |b| && SoundHeader(b, o)
    && (HeaderAt(b, o).isList ==> CanonicalItems(b, HeaderAt(b, o).start, EndAt(b, o)))
  }

  predicate CanonicalItems(b: seq<byte>, c: nat, end: nat)
    decreases Remaining(b, c), 1
  {
    if end <= c then c == end else CanonicalAt(b, c) && CanonicalItems(b, EndAt(b, c), end)
  }

  // ---------- what an encoder writes is canonical ----------

  lemma WrittenHeaderIsSound(b: seq<byte>, o: nat, payload: seq<byte>, offset: byte)
    requires |payload| < LENGTH_LIMIT && offset in {0x80, 0xc0}
    requires Occurs(b, o, EncodeHeader(|payload|, offset) + payload)
    requires offset == 0x80 && |payload| == 1 ==> 0x80 <= payload[0]
    ensures o < |b| && SoundHeader(b, o) && EndAt(b, o) == o + |EncodeHeader(|payload|, offset) + payload|
  {
    hide Pow256;
    PayloadRoundTrip(b, o, payload, offset);
    var h := EncodeHeader(|payload|, offset);
    OccursSplit(b, o, h, payload);
    assert b[o..o + |h|][0] == h[0] == b[o];
    if 56 <= |payload| {
      FromToBE(|payload|);
      ToBELength(|payload|, 8);
      assert b[o..o + |h|][1] == ToBE(|payload|)[0];
    } else if |payload| == 1 {
      assert b[o + |h|..o + |h| + 1] == payload;
    }
  }

  lemma StrIsCanonical(s: seq<byte>, b: seq<byte>, o: nat)
    requires |s| < LENGTH_LIMIT && Occurs(b, o, EncodeStr(s))
    ensures CanonicalAt(b, o) && EndAt(b, o) == o + |EncodeStr(s)|
  {
    hide Pow256, EncodeHeader;
    if |s| == 1 && s[0] < 0x80 {
      assert b[o] == b[o..o + 1][0] == s[0];
    } else {
      WrittenHeaderIsSound(b, o, s, 0x80);
      PayloadRoundTrip(b, o, s, 0x80);
    }
  }

  lemma {:induction false} EncodingIsCanonical(t: Item, b: seq<byte>, o: nat)
    requires Encodable(t) && Occurs(b, o, Encode(t))
    ensures CanonicalAt(b, o) && EndAt(b, o) == o + |Encode(t)|
    decreases t, 0
  {
    hide Pow256, EncodeHeader, EncodeStr, SoundHeader;
    match t
    case Str(s) =>
      StrIsCanonical(s, b, o);
    case List(items) =>
      WrittenHeaderIsSound(b, o, EncodeItems(items), 0xc0);
      PayloadRoundTrip(b, o, EncodeItems(items), 0xc0);
      EncodedItemsAreCanonical(items, b, HeaderAt(b, o).start);
  }

  lemma {:induction false} EncodedItemsAreCanonical(items: seq<Item>, b: seq<byte>, c: nat)
    requires AllEncodable(items) && Occurs(b, c, EncodeItems(items))
    ensures CanonicalItems(b, c, c + |EncodeItems(items)|)
    decreases items, 1
  {
    hide Encode, Encodable, CanonicalAt, HeaderAt;
    if items != [] {
      var first, rest := Encode(items[0]), EncodeItems(items[1..]);
      OccursSplit(b, c, first, rest);
      EncodingIsCanonical(items[0], b, c);
      EncodedItemsAreCanonical(items[1..], b, c + |first|);
    }
  }

  // ---------- what is canonical an encoder writes ----------

  lemma {:induction false} ToFromBE(s: seq<byte>)
    requires s != [] ==> s[0] != 0
    ensures ToBE(FromBE(s)) == s
    ensures s != [] ==> 0 < FromBE(s)
  {
    if s != [] {
      var front := s[..|s| - 1];
      ToFromBE(front);
      assert s == front + [s[|s| - 1]];
      assert FromBE(s) / 256 == FromBE(front) && FromBE(s) % 256 == s[|s| - 1];
    }
  }

  lemma {:induction false} Pow256Monotone(k: nat, n: nat)
    requires k <= n
    ensures Pow256(k) <= Pow256(n)
  {
    if k < n {
      Pow256Monotone(k, n - 1);
    }
  }

  /** A sound header is the one an encoder writes for that payload. */
  lemma SoundHeaderIsWritten(b: seq<byte>, o: nat)
    requires o < |b| && SoundHeader(b, o) && 0x80 <= b[o]
    ensures var h := HeaderAt(b, o);
            h.length < LENGTH_LIMIT
            && b[o..h.start] == EncodeHeader(h.length, if h.isList then 0xc0 else 0x80)
  {
    hide Pow256, FromBE, ToBE;
    Pow256Values();
    var h := HeaderAt(b, o);
    if IsLong(b[o]) {
      var digits := b[o + 1..h.start];
      ToFromBE(digits);
      FixedFromBE(digits);
      Pow256Monotone(|digits|, 8);
      assert b[o..h.start] == [b[o]] + digits;
    } else {
      assert b[o..h.start] == [b[o]];
    }
  }

  lemma Pow256Values()
    ensures 56 <= Pow256(8)
  {
    assert Pow256(1) == 256;
    Pow256Monotone(1, 8);
  }

  /** Canonical bytes decode, and encoding the result gives them back. */
  lemma {:induction false} CanonicalIsEncoding(b: seq<byte>, o: nat)
    requires CanonicalAt(b, o)
    ensures DecodeAt(b, o).Decoded? && DecodeAt(b, o).next == EndAt(b, o) <= |b|
    ensures Encodable(DecodeAt(b, o).item)
    ensures Encode(DecodeAt(b, o).item) == b[o..EndAt(b, o)]
    decreases Remaining(b, o), 0
  {
    hide Pow256;
    var h := HeaderAt(b, o);
    var payload := b[h.start..EndAt(b, o)];
    if b[o] < 0x80 {
      Pow256Values();
      assert payload == [b[o]];
    } else {
      SoundHeaderIsWritten(b, o);
      assert b[o..EndAt(b, o)] == b[o..h.start] + payload;
      if h.isList {
        CanonicalItemsAreEncoding(b, h.start, EndAt(b, o));
      } else if h.length == 1 {
        assert payload == [b[o + 1]];
      }
    }
  }

  lemma {:induction false} CanonicalItemsAreEncoding(b: seq<byte>, c: nat, end: nat)
    requires c <= end <= |b| && CanonicalItems(b, c, end)
    ensures DecodeItems(b, c, end).Items? && AllEncodable(DecodeItems(b, c, end).items)
    ensures EncodeItems(DecodeItems(b, c, end).items) == b[c..end]
    decreases Remaining(b, c), 1
  {
    hide DecodeAt, CanonicalAt, Encode, Encodable;
    if c < end {
      var e := EndAt(b, c);
      CanonicalIsEncoding(b, c);
      EndsInside(b, e, end);
      CanonicalItemsAreEncoding(b, e, end);
      var first, rest := DecodeAt(b, c).item, DecodeItems(b, e, end).items;
      assert ([first] + rest)[0] == first && ([first] + rest)[1..] == rest;
      assert b[c..end] == b[c..e] + b[e..end];
    } else {
      assert b[c..end] == [];
    }
  }

  lemma EndsInside(b: seq<byte>, c: nat, end: nat)
    requires CanonicalItems(b, c, end)
    ensures c <= end
  {
  }

  // ---------- both directions ----------

  /** An encoding stands at an offset exactly if the bytes there are canonical. */
  lemma CanonicalExactlyIfEncoded(b: seq<byte>, o: nat)
    ensures CanonicalAt(b, o) <==> exists t :: Encodable(t) && Occurs(b, o, Encode(t))
  {
    hide CanonicalAt, DecodeAt, Encode, Encodable;
    if CanonicalAt(b, o) {
      CanonicalIsEncoding(b, o);
      var t := DecodeAt(b, o).item;
      assert Encodable(t) && Occurs(b, o, Encode(t));
    }
    forall t | Encodable(t) && Occurs(b, o, Encode(t)) ensures CanonicalAt(b, o) {
      EncodingIsCanonical(t, b, o);
    }
  }

  /** Encoding what was decoded gives back the bytes read. */
  predicate EncodesBack(b: seq<byte>, o: nat) {
    var d := DecodeAt(b, o);
    d.Decoded? && Encodable(d.item) && d.next <= |b| && Encode(d.item) == b[o..d.next]
  }

  /** The round trip from the decoder to the encoder holds exactly for canonical bytes. */
  lemma EncodesBackExactlyIfCanonical(b: seq<byte>, o: nat)
    ensures EncodesBack(b, o) <==> CanonicalAt(b, o)
  {
    hide CanonicalAt, DecodeAt, Encode, Encodable;
    if CanonicalAt(b, o) {
      CanonicalIsEncoding(b, o);
    }
    if EncodesBack(b, o) {
      DecodedMovesOn(b, o);
      EncodingIsCanonical(DecodeAt(b, o).item, b, o);
    }
  }

  lemma DecodedMovesOn(b: seq<byte>, o: nat)
    requires DecodeAt(b, o).Decoded?
    ensures o < DecodeAt(b, o).next
  {
  }

  /**
   The decoder accepts what no encoder writes: a length that is not minimal, and a string
   that claims more bytes than there are.
   */
  lemma AcceptsMoreThanEncodings()
    ensures var b: seq<byte> := [0xb8, 0x01, 0x05];
            DecodeAt(b, 0) == Decoded(Str([0x05]), 3) && forall t | Encodable(t) :: !Occurs(b, 0, Encode(t))
    ensures var b: seq<byte> := [0x85, 0x01];
            DecodeAt(b, 0) == Decoded(Str([0x01]), 6) && forall t | Encodable(t) :: !Occurs(b, 0, Encode(t))
  {
    hide Encode, Encodable;
    var b: seq<byte> := [0xb8, 0x01, 0x05];
    assert Slice(b, 1, 2) == [1] && FromBE([1][..0]) == 0;
    assert Slice(b, 2, 3) == [5];
    CanonicalExactlyIfEncoded(b, 0);
    var c: seq<byte> := [0x85, 0x01];
    assert Slice(c, 1, 6) == [1];
    CanonicalExactlyIfEncoded(c, 0);
  }
}
