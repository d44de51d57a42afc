/** From a decoded RLP list to the ExecutionPayload object of the Engine API. */
module Payload {
  import opened Bytes
  import opened Hex
  import opened Rlp

  /** The Python exceptions the converter and the loader raise. */
  datatype Error = IndexOutOfRange | ValueError | TypeError | AttributeError

  datatype Result<T> = Ok(value: T) | Err(error: Error)

  /** The keys of an ExecutionPayload object. */
  datatype Key =
    | ParentHash | FeeRecipient | StateRoot | ReceiptsRoot | LogsBloom | PrevRandao
    | BlockNumber | GasLimit | GasUsed | Timestamp | ExtraData | BaseFeePerGas | BlockHash
    | BlobGasUsed | ExcessBlobGas | Transactions | Withdrawals

  datatype Withdrawal = Withdrawal(index: string, validatorIndex: string, address: string, amount: string)

  /** The JSON values an ExecutionPayload object holds. */
  datatype Value =
    | Text(text: string) | Integer(number: int) | Texts(texts: seq<string>) | Objects(objects: seq<Withdrawal>)

  type Object = map<Key, Value>

  datatype Encoder = Data | Qty

  /** The scalar fields in wire order; transactions and withdrawals sit between the last two and the rest. */
  const FIELDS: seq<(Key, Encoder)> := [
    (ParentHash, Data), (FeeRecipient, Data), (StateRoot, Data), (ReceiptsRoot, Data),
    (LogsBloom, Data), (PrevRandao, Data), (BlockNumber, Qty), (GasLimit, Qty), (GasUsed, Qty),
    (Timestamp, Qty), (ExtraData, Data), (BaseFeePerGas, Qty), (BlockHash, Data),
    (BlobGasUsed, Qty), (ExcessBlobGas, Qty)]

  function ScalarIndex(j: nat): (k: nat)
    ensures j < |FIELDS| ==> k < 17
  {
    if j < 13 then j else j + 2
  }

  // ---------- encoders on items ----------

  /** The number `_to_qty` reads: an empty list counts as zero, any other list is a `TypeError`. */
  function QtyValue(item: Item): Result<nat> {
    match item
    case Str(b) => Ok(FromBE(b))
    case List(items) => if items == [] then Ok(0) else Err(TypeError)
  }

  /** `_to_data` and `_to_qty` applied to whatever item the list holds. */
  function Encoded(encoder: Encoder, item: Item): Result<string> {
    match encoder
    case Data => (match item case Str(b) => Ok(ToData(b)) case List(_) => Err(AttributeError))
    case Qty => (match QtyValue(item) case Ok(n) => Ok(ToQty(n)) case Err(e) => Err(e))
  }

  /** What iterating an item gives: a list's items. A byte string iterates as integers, which no encoder takes. */
  function Iterated(item: Item): Result<seq<Item>> {
    match item
    case List(items) => Ok(items)
    case Str(b) => if b == [] then Ok([]) else Err(AttributeError)
  }

  function TransactionsOf(items: seq<Item>): Result<seq<string>> {
    if items == [] then Ok([]) else
    match Encoded(Data, items[0])
    case Err(e) => Err(e)
    case Ok(tx) =>
      match TransactionsOf(items[1..])
      case Err(e) => Err(e)
      case Ok(rest) => Ok([tx] + rest)
  }

  /**
   A four-item list becomes an object. Four bytes unpack too, but a non-zero index or
   validator index is then a `TypeError`, and the address always an `AttributeError`.
   */
  function WithdrawalOf(w: Item): Result<Withdrawal> {
    match w
    case Str(b) =>
      Err(if |b| != 4 then ValueError else if b[0] != 0 || b[1] != 0 then TypeError else AttributeError)
    case List(f) =>
      if |f| != 4 then Err(ValueError) else
      match (Encoded(Qty, f[0]), Encoded(Qty, f[1]), Encoded(Data, f[2]), Encoded(Qty, f[3]))
      case (Ok(index), Ok(validator), Ok(address), Ok(amount)) => Ok(Withdrawal(index, validator, address, amount))
      case (Err(e), _, _, _) => Err(e)
      case (_, Err(e), _, _) => Err(e)
      case (_, _, Err(e), _) => Err(e)
      case (_, _, _, Err(e)) => Err(e)
  }

  function WithdrawalsOf(items: seq<Item>): Result<seq<Withdrawal>> {
    if items == [] then Ok([]) else
    match WithdrawalOf(items[0])
    case Err(e) => Err(e)
    case Ok(w) =>
      match WithdrawalsOf(items[1..])
      case Err(e) => Err(e)
      case Ok(rest) => Ok([w] + rest)
  }

  // ---------- the object ----------

  /** The object after the first `n` scalar fields are filled in. */
  function Scalars(fields: seq<Item>, n: nat): Result<Object>
    requires 17 <= |fields| && n <= |FIELDS|
  {
    if n == 0 then Ok(map[]) else
    match Scalars(fields, n - 1)
    case Err(e) => Err(e)
    case Ok(payload) =>
      match Encoded(FIELDS[n - 1].1, fields[ScalarIndex(n - 1)])
      case Err(e) => Err(e)
      case Ok(text) => Ok(payload[FIELDS[n - 1].0 := Text(text)])
  }

  function Lists(fields: seq<Item>): Result<(seq<string>, seq<Withdrawal>)>
    requires 17 <= |fields|
  {
    match Iterated(fields[13])
    case Err(e) => Err(e)
    case Ok(txs) =>
      match TransactionsOf(txs)
      case Err(e) => Err(e)
      case Ok(transactions) =>
        match Iterated(fields[14])
        case Err(e) => Err(if fields[14].Str? then TypeError else e)
        case Ok(ws) =>
          match WithdrawalsOf(ws)
          case Err(e) => Err(e)
          case Ok(withdrawals) => Ok((transactions, withdrawals))
  }

  function PayloadOf(decoded: Item): Result<Object> {
    if decoded.Str? || |decoded.items| < 17 then Err(ValueError) else
    match Scalars(decoded.items, |FIELDS|)
    case Err(e) => Err(e)
    case Ok(payload) =>
      match Lists(decoded.items)
      case Err(e) => Err(e)
      case Ok((transactions, withdrawals)) =>
        Ok(payload[Transactions := Texts(transactions)][Withdrawals := Objects(withdrawals)])
  }

  method PayloadFromRlp(decoded: Item) returns (r: Result<Object>)
    ensures r == PayloadOf(decoded)
  {
    hide Encoded, Lists;
    if decoded.Str? || |decoded.items| < 17 {
      return Err(ValueError);
    }
    var fields := decoded.items;
    var payload: Object := map[];
    for j := 0 to |FIELDS|
      invariant Scalars(fields, j) == Ok(payload)
    {
      var (key, enc) := FIELDS[j];
      var text := Encoded(enc, fields[ScalarIndex(j)]);
      if text.Err? {
        ScalarsStuck(fields, j + 1, |FIELDS|);
        return Err(text.error);
      }
      payload := payload[key := Text(text.value)];
    }
    var lists := Lists(fields);
    if lists.Err? {
      return Err(lists.error);
    }
    payload := payload[Transactions := Texts(lists.value.0)];
    payload := payload[Withdrawals := Objects(lists.value.1)];
    return Ok(payload);
  }

  lemma ScalarsStuck(fields: seq<Item>, j: nat, n: nat)
    requires 17 <= |fields| && j <= n <= |FIELDS| && Scalars(fields, j).Err?
    ensures Scalars(fields, n) == Scalars(fields, j)
  {
  }

  // ---------- the mapping loses nothing but leading zeros of numbers ----------

  /** Equal bytes where DATA is written, equal numbers where a QUANTITY is. */
  predicate SameScalar(encoder: Encoder, a: Item, b: Item) {
    match encoder
    case Data => a == b
    case Qty => QtyValue(a) == QtyValue(b)
  }

  predicate SameWithdrawal(w: Item, v: Item) {
    w.List? && v.List? && |w.items| == |v.items| == 4
    && SameScalar(Qty, w.items[0], v.items[0]) && SameScalar(Qty, w.items[1], v.items[1])
    && SameScalar(Data, w.items[2], v.items[2]) && SameScalar(Qty, w.items[3], v.items[3])
  }

  predicate SameWithdrawals(ws: seq<Item>, vs: seq<Item>) {
    |ws| == |vs| && forall i | 0 <= i < |ws| :: SameWithdrawal(ws[i], vs[i])
  }

  predicate SameScalars(f: seq<Item>, g: seq<Item>, n: nat)
    requires 17 <= |f| && 17 <= |g| && n <= |FIELDS|
  {
    forall j | 0 <= j < n :: SameScalar(FIELDS[j].1, f[ScalarIndex(j)], g[ScalarIndex(j)])
  }

  predicate SamePayload(f: seq<Item>, g: seq<Item>)
    requires 17 <= |f| && 17 <= |g|
  {
    SameScalars(f, g, |FIELDS|)
    && Iterated(f[13]) == Iterated(g[13])
    && Iterated(f[14]).Ok? && Iterated(g[14]).Ok? && SameWithdrawals(Iterated(f[14]).value, Iterated(g[14]).value)
  }

  lemma EncodedInjective(encoder: Encoder, a: Item, b: Item)
    requires Encoded(encoder, a).Ok? && Encoded(encoder, b).Ok?
    ensures Encoded(encoder, a) == Encoded(encoder, b) <==> SameScalar(encoder, a, b)
  {
    match encoder
    case Data => DataInjective(a.data, b.data);
    case Qty => QtyInjective(QtyValue(a).value, QtyValue(b).value);
  }

  lemma {:induction false} TransactionsInjective(xs: seq<Item>, ys: seq<Item>)
    requires TransactionsOf(xs).Ok? && TransactionsOf(ys).Ok?
    ensures |TransactionsOf(xs).value| == |xs|
    ensures TransactionsOf(xs) == TransactionsOf(ys) <==> xs == ys
  {
    if xs != [] {
      TransactionsInjective(xs[1..], if ys == [] then [] else ys[1..]);
      if ys != [] {
        EncodedInjective(Data, xs[0], ys[0]);
        var t, u := TransactionsOf(xs).value, TransactionsOf(ys).value;
        assert t[1..] == TransactionsOf(xs[1..]).value && u[1..] == TransactionsOf(ys[1..]).value;
        assert xs == [xs[0]] + xs[1..] && ys == [ys[0]] + ys[1..];
      }
    }
  }

  lemma WithdrawalInjective(w: Item, v: Item)
    requires WithdrawalOf(w).Ok? && WithdrawalOf(v).Ok?
    ensures WithdrawalOf(w) == WithdrawalOf(v) <==> SameWithdrawal(w, v)
  {
    EncodedInjective(Qty, w.items[0], v.items[0]);
    EncodedInjective(Qty, w.items[1], v.items[1]);
    EncodedInjective(Data, w.items[2], v.items[2]);
    EncodedInjective(Qty, w.items[3], v.items[3]);
  }

  lemma {:induction false} WithdrawalsInjective(ws: seq<Item>, vs: seq<Item>)
    requires WithdrawalsOf(ws).Ok? && WithdrawalsOf(vs).Ok?
    ensures |WithdrawalsOf(ws).value| == |ws|
    ensures WithdrawalsOf(ws) == WithdrawalsOf(vs) <==> SameWithdrawals(ws, vs)
  {
    if ws != [] {
      WithdrawalsInjective(ws[1..], if vs == [] then [] else vs[1..]);
      if vs != [] {
        WithdrawalInjective(ws[0], vs[0]);
        var t, u := WithdrawalsOf(ws).value, WithdrawalsOf(vs).value;
        assert t[1..] == WithdrawalsOf(ws[1..]).value && u[1..] == WithdrawalsOf(vs[1..]).value;
        assert SameWithdrawals(ws, vs) <==> SameWithdrawal(ws[0], vs[0]) && SameWithdrawals(ws[1..], vs[1..]) by {
          if SameWithdrawal(ws[0], vs[0]) && SameWithdrawals(ws[1..], vs[1..]) {
            forall i | 0 <= i < |ws| ensures SameWithdrawal(ws[i], vs[i]) {
              if i > 0 { assert ws[i] == ws[1..][i - 1] && vs[i] == vs[1..][i - 1]; }
            }
          }
        }
      }
    }
  }

  function Position(key: Key): nat {
    match key
    case ParentHash => 0 case FeeRecipient => 1 case StateRoot => 2 case ReceiptsRoot => 3
    case LogsBloom => 4 case PrevRandao => 5 case BlockNumber => 6 case GasLimit => 7
    case GasUsed => 8 case Timestamp => 9 case ExtraData => 10 case BaseFeePerGas => 11
    case BlockHash => 12 case BlobGasUsed => 13 case ExcessBlobGas => 14
    case Transactions => 15 case Withdrawals => 16
  }

  lemma FieldPosition(j: nat)
    requires j < |FIELDS|
    ensures Position(FIELDS[j].0) == j
  {
  }

  lemma {:induction false} ScalarsAt(fields: seq<Item>, n: nat, j: nat)
    requires 17 <= |fields| && j < n <= |FIELDS| && Scalars(fields, n).Ok?
    ensures var (key, enc) := FIELDS[j];
            Encoded(enc, fields[ScalarIndex(j)]).Ok? && key in Scalars(fields, n).value
            && Scalars(fields, n).value[key] == Text(Encoded(enc, fields[ScalarIndex(j)]).value)
  {
    if j < n - 1 {
      ScalarsAt(fields, n - 1, j);
      FieldPosition(n - 1);
      FieldPosition(j);
    }
  }

  /** Under each scalar key stands the encoding of its own field; the lists stand under theirs. */
  lemma PayloadAt(fields: seq<Item>, j: nat)
    requires 17 <= |fields| && j < |FIELDS| && PayloadOf(List(fields)).Ok?
    ensures var (key, enc) := FIELDS[j]; var payload := PayloadOf(List(fields)).value;
            Encoded(enc, fields[ScalarIndex(j)]).Ok? && key in payload
            && payload[key] == Text(Encoded(enc, fields[ScalarIndex(j)]).value)
  {
    hide Scalars, Lists;
    ScalarsAt(fields, |FIELDS|, j);
    FieldPosition(j);
  }

  /** The transactions stand in order, each as DATA; and so do the withdrawals, each with its four fields. */
  lemma {:induction false} TransactionAt(items: seq<Item>, i: nat)
    requires TransactionsOf(items).Ok? && i < |items|
    ensures |TransactionsOf(items).value| == |items|
    ensures items[i].Str? && TransactionsOf(items).value[i] == ToData(items[i].data)
  {
    if i > 0 {
      TransactionAt(items[1..], i - 1);
    } else if |items| > 1 {
      TransactionAt(items[1..], 0);
    }
  }

  lemma {:induction false} WithdrawalAt(items: seq<Item>, i: nat)
    requires WithdrawalsOf(items).Ok? && i < |items|
    ensures |WithdrawalsOf(items).value| == |items|
    ensures var w := WithdrawalsOf(items).value[i];
            items[i].List? && |items[i].items| == 4 && items[i].items[2].Str?
            && Ok(w.index) == Encoded(Qty, items[i].items[0]) && Ok(w.validatorIndex) == Encoded(Qty, items[i].items[1])
            && w.address == ToData(items[i].items[2].data) && Ok(w.amount) == Encoded(Qty, items[i].items[3])
  {
    if i > 0 {
      WithdrawalAt(items[1..], i - 1);
    } else if |items| > 1 {
      WithdrawalAt(items[1..], 0);
    }
  }

  /** The object has all seventeen keys and no other, and the two lists are those of fields 13 and 14. */
  lemma PayloadLists(fields: seq<Item>)
    requires PayloadOf(List(fields)).Ok?
    ensures var p := PayloadOf(List(fields)).value;
            17 <= |fields| && (forall key: Key :: key in p)
            && Iterated(fields[13]).Ok? && Iterated(fields[14]).Ok?
            && TransactionsOf(Iterated(fields[13]).value).Ok? && WithdrawalsOf(Iterated(fields[14]).value).Ok?
            && p[Transactions] == Texts(TransactionsOf(Iterated(fields[13]).value).value)
            && p[Withdrawals] == Objects(WithdrawalsOf(Iterated(fields[14]).value).value)
  {
    hide TransactionsOf, WithdrawalsOf, Iterated, Encoded;
    forall key: Key | Position(key) < |FIELDS| ensures key in PayloadOf(List(fields)).value {
      PayloadAt(fields, Position(key));
      KeyAtPosition(key);
    }
  }

  lemma KeyAtPosition(key: Key)
    requires Position(key) < |FIELDS|
    ensures FIELDS[Position(key)].0 == key
  {
  }

  predicate HasData(payload: Object, key: Key, item: Item) {
    item.Str? && key in payload && payload[key] == Text(ToData(item.data))
  }

  /** The number of a byte string; an empty list is taken for zero. */
  predicate HasQty(payload: Object, key: Key, item: Item) {
    key in payload
    && if item.Str? then payload[key] == Text(ToQty(FromBE(item.data)))
       else item == List([]) && payload[key] == Text("0x0")
  }

  lemma FieldAt(fields: seq<Item>, j: nat, k: nat, key: Key, encoder: Encoder)
    requires PayloadOf(List(fields)).Ok? && j < |FIELDS| && FIELDS[j] == (key, encoder) && k == ScalarIndex(j)
    ensures 17 <= |fields|
    ensures encoder == Data ==> HasData(PayloadOf(List(fields)).value, key, fields[k])
    ensures encoder == Qty ==> HasQty(PayloadOf(List(fields)).value, key, fields[k])
  {
    PayloadAt(fields, j);
    if encoder == Qty && fields[k].List? {
      QtyRoundTrip(0);
    }
  }

  /** Every scalar key by its name, with the number of its field in the RLP list and its encoding. */
  lemma FieldsByName(fields: seq<Item>)
    requires PayloadOf(List(fields)).Ok?
    ensures 17 <= |fields|
    ensures var p := PayloadOf(List(fields)).value;
            HasData(p, ParentHash, fields[0]) && HasData(p, FeeRecipient, fields[1])
            && HasData(p, StateRoot, fields[2]) && HasData(p, ReceiptsRoot, fields[3])
            && HasData(p, LogsBloom, fields[4]) && HasData(p, PrevRandao, fields[5])
            && HasQty(p, BlockNumber, fields[6]) && HasQty(p, GasLimit, fields[7])
            && HasQty(p, GasUsed, fields[8]) && HasQty(p, Timestamp, fields[9])
            && HasData(p, ExtraData, fields[10]) && HasQty(p, BaseFeePerGas, fields[11])
            && HasData(p, BlockHash, fields[12])
            && HasQty(p, BlobGasUsed, fields[15]) && HasQty(p, ExcessBlobGas, fields[16])
  {
    hide PayloadOf, HasData, HasQty;
    HashesByName(fields);
    NumbersByName(fields);
  }

  lemma HashesByName(fields: seq<Item>)
    requires PayloadOf(List(fields)).Ok?
    ensures 17 <= |fields|
    ensures var p := PayloadOf(List(fields)).value;
            HasData(p, ParentHash, fields[0]) && HasData(p, FeeRecipient, fields[1])
            && HasData(p, StateRoot, fields[2]) && HasData(p, ReceiptsRoot, fields[3])
            && HasData(p, LogsBloom, fields[4]) && HasData(p, PrevRandao, fields[5])
            && HasData(p, ExtraData, fields[10]) && HasData(p, BlockHash, fields[12])
  {
    hide PayloadOf, HasData, HasQty;
    FieldAt(fields, 0, 0, ParentHash, Data);
    FieldAt(fields, 1, 1, FeeRecipient, Data);
    FieldAt(fields, 2, 2, StateRoot, Data);
    FieldAt(fields, 3, 3, ReceiptsRoot, Data);
    FieldAt(fields, 4, 4, LogsBloom, Data);
    FieldAt(fields, 5, 5, PrevRandao, Data);
    FieldAt(fields, 10, 10, ExtraData, Data);
    FieldAt(fields, 12, 12, BlockHash, Data);
  }

  lemma NumbersByName(fields: seq<Item>)
    requires PayloadOf(List(fields)).Ok?
    ensures 17 <= |fields|
    ensures var p := PayloadOf(List(fields)).value;
            HasQty(p, BlockNumber, fields[6]) && HasQty(p, GasLimit, fields[7])
            && HasQty(p, GasUsed, fields[8]) && HasQty(p, Timestamp, fields[9])
            && HasQty(p, BaseFeePerGas, fields[11])
            && HasQty(p, BlobGasUsed, fields[15]) && HasQty(p, ExcessBlobGas, fields[16])
  {
    hide PayloadOf, HasData, HasQty;
    FieldAt(fields, 6, 6, BlockNumber, Qty);
    FieldAt(fields, 7, 7, GasLimit, Qty);
    FieldAt(fields, 8, 8, GasUsed, Qty);
    FieldAt(fields, 9, 9, Timestamp, Qty);
    FieldAt(fields, 11, 11, BaseFeePerGas, Qty);
    FieldAt(fields, 13, 15, BlobGasUsed, Qty);
    FieldAt(fields, 14, 16, ExcessBlobGas, Qty);
  }

  // ---------- when there is an object at all ----------

  predicate IsNumber(item: Item) {
    item.Str? || item == List([])
  }

  /** Items one can iterate over: a list, or an empty byte string. */
  predicate IsSequence(item: Item) {
    item.List? || item == Str([])
  }

  function Elements(item: Item): seq<Item> {
    if item.List? then item.items else []
  }

  predicate IsWithdrawal(item: Item) {
    item.List? && |item.items| == 4
    && IsNumber(item.items[0]) && IsNumber(item.items[1]) && item.items[2].Str? && IsNumber(item.items[3])
  }

  /** Enough fields, each of the kind its key needs, by their numbers. */
  predicate IsPayload(decoded: Item) {
    decoded.List? && 17 <= |decoded.items|
    && var f := decoded.items;
       (forall k | k in {0, 1, 2, 3, 4, 5, 10, 12} :: f[k].Str?)
       && (forall k | k in {6, 7, 8, 9, 11, 15, 16} :: IsNumber(f[k]))
       && IsSequence(f[13]) && (forall tx | tx in Elements(f[13]) :: tx.Str?)
       && IsSequence(f[14]) && (forall w | w in Elements(f[14]) :: IsWithdrawal(w))
  }

  lemma {:induction false} TransactionsExactlyIf(items: seq<Item>)
    ensures TransactionsOf(items).Ok? <==> forall tx | tx in items :: tx.Str?
    ensures TransactionsOf(items).Err? ==> TransactionsOf(items).error == AttributeError
  {
    if items != [] {
      TransactionsExactlyIf(items[1..]);
      assert items == [items[0]] + items[1..];
    }
  }

  lemma WithdrawalExactlyIf(w: Item)
    ensures WithdrawalOf(w).Ok? <==> IsWithdrawal(w)
    ensures w.List? && |w.items| != 4 ==> WithdrawalOf(w) == Err(ValueError)
    ensures w.Str? && |w.data| != 4 ==> WithdrawalOf(w) == Err(ValueError)
    ensures w == Str([0, 0, 1, 1]) ==> WithdrawalOf(w) == Err(AttributeError)
    ensures w == Str([1, 0, 0, 0]) || w == Str([0, 1, 0, 0]) ==> WithdrawalOf(w) == Err(TypeError)
  {
  }

  lemma {:induction false} WithdrawalsExactlyIf(items: seq<Item>)
    ensures WithdrawalsOf(items).Ok? <==> forall w | w in items :: IsWithdrawal(w)
  {
    if items != [] {
      WithdrawalExactlyIf(items[0]);
      WithdrawalsExactlyIf(items[1..]);
      assert items == [items[0]] + items[1..];
    }
  }

  /** Scalars fail at the first field of the wrong kind: DATA with one error, a QUANTITY with another. */
  lemma {:induction false} ScalarsExactlyIf(fields: seq<Item>, n: nat)
    requires 17 <= |fields| && n <= |FIELDS|
    ensures Scalars(fields, n).Ok? <==> forall j | 0 <= j < n :: Encoded(FIELDS[j].1, fields[ScalarIndex(j)]).Ok?
    ensures forall j | 0 <= j < n && (forall i | 0 <= i < j :: Encoded(FIELDS[i].1, fields[ScalarIndex(i)]).Ok?)
                       && Encoded(FIELDS[j].1, fields[ScalarIndex(j)]).Err? ::
              Scalars(fields, n) == Err(if FIELDS[j].1 == Data then AttributeError else TypeError)
  {
    hide Encoded, ScalarIndex;
    if n > 0 {
      ScalarsExactlyIf(fields, n - 1);
      ErrorOf(FIELDS[n - 1].1, fields[ScalarIndex(n - 1)]);
    }
  }

  lemma ErrorOf(encoder: Encoder, item: Item)
    ensures Encoded(encoder, item).Ok? <==> if encoder == Data then item.Str? else IsNumber(item)
    ensures Encoded(encoder, item).Err? ==>
              Encoded(encoder, item).error == if encoder == Data then AttributeError else TypeError
  {
  }

  /** A decoded body becomes an object exactly if it is a payload; too few fields, or none, are a `ValueError`. */
  lemma ObjectExactlyIfPayload(decoded: Item)
    ensures PayloadOf(decoded).Ok? <==> IsPayload(decoded)
    ensures !(decoded.List? && 17 <= |decoded.items|) ==> PayloadOf(decoded) == Err(ValueError)
  {
    hide Scalars, TransactionsOf, WithdrawalsOf, Encoded, IsWithdrawal;
    if decoded.List? && 17 <= |decoded.items| {
      var f := decoded.items;
      ScalarsExactlyIf(f, |FIELDS|);
      ScalarKinds(f);
      TransactionsExactlyIf(Elements(f[13]));
      WithdrawalsExactlyIf(Elements(f[14]));
    }
  }

  /** What the two lists raise, transactions before withdrawals; bytes where a list should be are told apart. */
  lemma ListErrors(f: seq<Item>)
    requires 17 <= |f|
    ensures f[13].Str? && f[13] != Str([]) ==> Lists(f) == Err(AttributeError)
    ensures f[13].List? && !(forall tx | tx in f[13].items :: tx.Str?) ==> Lists(f) == Err(AttributeError)
    ensures f[13] == List([]) && f[14].Str? && f[14] != Str([]) ==> Lists(f) == Err(TypeError)
  {
    TransactionsExactlyIf(Elements(f[13]));
  }

  lemma ScalarKinds(f: seq<Item>)
    requires 17 <= |f|
    ensures (forall j | 0 <= j < |FIELDS| :: Encoded(FIELDS[j].1, f[ScalarIndex(j)]).Ok?)
        <==> (forall k | k in {0, 1, 2, 3, 4, 5, 10, 12} :: f[k].Str?)
             && (forall k | k in {6, 7, 8, 9, 11, 15, 16} :: IsNumber(f[k]))
  {
    hide Encoded, IsNumber;
    forall j | 0 <= j < |FIELDS|
      ensures var k := ScalarIndex(j);
              (Encoded(FIELDS[j].1, f[k]).Ok?
               <==> if k in {0, 1, 2, 3, 4, 5, 10, 12} then f[k].Str? else IsNumber(f[k]))
              && (k in {0, 1, 2, 3, 4, 5, 10, 12} || k in {6, 7, 8, 9, 11, 15, 16})
    {
      KindOf(j);
      ErrorOf(FIELDS[j].1, f[ScalarIndex(j)]);
    }
    if forall j | 0 <= j < |FIELDS| :: Encoded(FIELDS[j].1, f[ScalarIndex(j)]).Ok? {
      forall k | k in {0, 1, 2, 3, 4, 5, 10, 12} ensures f[k].Str? {
        assert ScalarIndex(k) == k;
      }
      forall k | k in {6, 7, 8, 9, 11, 15, 16} ensures IsNumber(f[k]) {
        assert ScalarIndex(if k < 13 then k else k - 2) == k;
      }
    }
  }

  lemma KindOf(j: nat)
    requires j < |FIELDS|
    ensures FIELDS[j].1 == Data <==> ScalarIndex(j) in {0, 1, 2, 3, 4, 5, 10, 12}
    ensures FIELDS[j].1 == Qty <==> ScalarIndex(j) in {6, 7, 8, 9, 11, 15, 16}
  {
  }

  lemma {:induction false} SameScalarsSameMap(f: seq<Item>, g: seq<Item>, n: nat)
    requires 17 <= |f| && 17 <= |g| && n <= |FIELDS| && SameScalars(f, g, n)
    ensures Scalars(f, n) == Scalars(g, n)
  {
    if n > 0 {
      SameScalarsSameMap(f, g, n - 1);
      assert SameScalar(FIELDS[n - 1].1, f[ScalarIndex(n - 1)], g[ScalarIndex(n - 1)]);
    }
  }

  lemma ListsInjective(f: seq<Item>, g: seq<Item>)
    requires 17 <= |f| && 17 <= |g| && Lists(f).Ok? && Lists(g).Ok?
    ensures Lists(f) == Lists(g) <==>
            Iterated(f[13]) == Iterated(g[13])
            && SameWithdrawals(Iterated(f[14]).value, Iterated(g[14]).value)
  {
    TransactionsInjective(Iterated(f[13]).value, Iterated(g[13]).value);
    WithdrawalsInjective(Iterated(f[14]).value, Iterated(g[14]).value);
  }

  /** Two lists give the same object exactly when they agree in every field, numbers read as numbers. */
  lemma Lossless(f: seq<Item>, g: seq<Item>)
    requires PayloadOf(List(f)).Ok? && PayloadOf(List(g)).Ok?
    ensures PayloadOf(List(f)) == PayloadOf(List(g)) <==> SamePayload(f, g)
  {
    ListsInjective(f, g);
    if SamePayload(f, g) {
      SameScalarsSameMap(f, g, |FIELDS|);
    }
    if PayloadOf(List(f)) == PayloadOf(List(g)) {
      SameObjectSameScalars(f, g);
      var p, q := PayloadOf(List(f)).value, PayloadOf(List(g)).value;
      assert p[Transactions] == q[Transactions] && p[Withdrawals] == q[Withdrawals];
    }
  }

  lemma SameObjectSameScalars(f: seq<Item>, g: seq<Item>)
    requires PayloadOf(List(f)).Ok? && PayloadOf(List(f)) == PayloadOf(List(g))
    ensures 17 <= |f| && 17 <= |g| && SameScalars(f, g, |FIELDS|)
  {
    forall j | 0 <= j < |FIELDS|
      ensures SameScalar(FIELDS[j].1, f[ScalarIndex(j)], g[ScalarIndex(j)])
    {
      PayloadAt(f, j);
      PayloadAt(g, j);
      EncodedInjective(FIELDS[j].1, f[ScalarIndex(j)], g[ScalarIndex(j)]);
    }
  }
}
