/** Slicing a window of blocks out of the record stream, without decoding what is skipped. */
module Converter {
  import opened Bytes
  import opened Framing
  import opened Hex
  import opened Payload
  import opened Records
  import opened Wrappers
  import Rlp

  // ---------- the block-number peek ----------

  /** The last of the `n` items decoded one after another from `cursor`. */
  function NthItem(b: seq<byte>, cursor: nat, n: nat): Rlp.Decoded
    requires n > 0
    decreases n, cursor
  {
    var d := Rlp.DecodeAt(b, cursor);
    if n == 1 || d.IndexError? then d else NthItem(b, d.next, n - 1)
  }

  function FieldsStart(prefix: byte): nat {
    if prefix < 0xf8 then 1 else 1 + (prefix - 0xf7)
  }

  function Peek(body: seq<byte>): Result<nat> {
    if body == [] then Err(IndexOutOfRange) else
    match NthItem(body, FieldsStart(body[0]), 7)
    case IndexError => Err(IndexOutOfRange)
    case Decoded(item, _) => QtyValue(item)
  }

  method PeekBlockNumber(body: seq<byte>) returns (r: Result<nat>)
    ensures r == Peek(body)
  {
    hide Rlp.DecodeAt, QtyValue;
    if body == [] {
      return Err(IndexOutOfRange);
    }
    var cursor := FieldsStart(body[0]);
    var item := Rlp.List([]);
    for i := 0 to 7
      invariant i < 7 ==> NthItem(body, FieldsStart(body[0]), 7) == NthItem(body, cursor, 7 - i)
      invariant i == 7 ==> NthItem(body, FieldsStart(body[0]), 7) == Rlp.Decoded(item, cursor)
    {
      var d := Rlp.Decode(body, cursor);
      if d.IndexError? {
        return Err(IndexOutOfRange);
      }
      item, cursor := d.item, d.next;
    }
    return QtyValue(item);
  }

  lemma {:induction false} NthItemOfList(b: seq<byte>, cursor: nat, end: nat, items: seq<Rlp.Item>, n: nat)
    requires Rlp.DecodeItems(b, cursor, end) == Rlp.Items(items) && 0 < n <= |items|
    ensures NthItem(b, cursor, n).Decoded? && NthItem(b, cursor, n).item == items[n - 1]
    decreases n, cursor
  {
    if n > 1 {
      NthItemOfList(b, Rlp.DecodeAt(b, cursor).next, end, items[1..], n - 1);
    }
  }

  /** On every body whose full decode gives seven items, the peek is the seventh read as a number. */
  lemma PeekIsSeventhItem(body: seq<byte>, items: seq<Rlp.Item>)
    requires Rlp.DecodeAt(body, 0).Decoded? && Rlp.DecodeAt(body, 0).item == Rlp.List(items)
    requires 7 <= |items|
    ensures Peek(body) == QtyValue(items[6])
  {
    var h := Rlp.HeaderAt(body, 0);
    assert h.start == FieldsStart(body[0]);
    NthItemOfList(body, h.start, h.start + h.length, items, 7);
  }

  // ---------- one record ----------

  /** What the command line stamps into every record. */
  datatype Stamp = Stamp(
    versionedHashes: seq<string>,
    parentBeaconBlockRoot: string,
    executionRequests: seq<string>,
    newpayloadVersion: int,
    fork: string)

  function Stamped(payload: Object, stamp: Stamp): Line {
    Record(Some(payload), Some(stamp.versionedHashes), Some(stamp.parentBeaconBlockRoot),
           Some(stamp.executionRequests), Some(stamp.newpayloadVersion), Some(stamp.fork))
  }

  function FullPayload(body: seq<byte>): Result<Object> {
    match Rlp.DecodeAt(body, 0)
    case IndexError => Err(IndexOutOfRange)
    case Decoded(item, _) => PayloadOf(item)
  }

  /** A body the converter can turn into a record. */
  predicate WellFormed(body: seq<byte>) {
    FullPayload(body).Ok?
  }

  /** The number read back from the `blockNumber` a well-formed body is written with. */
  function EmittedNumber(body: seq<byte>): (n: nat)
    requires WellFormed(body)
  {
    PeekIsEmitted(body);
    ParseHex(TextAt(FullPayload(body).value, BlockNumber).value).value
  }

  /** The cheap peek, the decoded field and the emitted hex agree on every well-formed body. */
  lemma PeekIsEmitted(body: seq<byte>)
    requires WellFormed(body)
    ensures TextAt(FullPayload(body).value, BlockNumber).Some?
    ensures ParseHex(TextAt(FullPayload(body).value, BlockNumber).value).Number?
    ensures Peek(body) == Ok(ParseHex(TextAt(FullPayload(body).value, BlockNumber).value).value)
  {
    hide Rlp.DecodeItems, Rlp.HeaderAt, NthItem;
    var fields := Rlp.DecodeAt(body, 0).item.items;
    PeekIsSeventhItem(body, fields);
    PayloadAt(fields, 6);
    QtyRoundTrip(QtyValue(fields[6]).value);
  }

  // ---------- the slicing loop ----------

  datatype ConvertEnd = StreamEnd(end: End) | CountReached | BodyError(error: Error)

  /** A written line, with the number read back from its `blockNumber`. */
  datatype Written = Written(line: Line, number: nat)

  /** What was written before the loop ended, and why it ended. */
  datatype Conversion = Conversion(written: seq<Written>, end: ConvertEnd)

  /** What the loop does with one body. */
  datatype Step = Skip | Fail(error: Error) | Write(item: Written)

  function StepFor(body: seq<byte>, start: Option<int>, stamp: Stamp): Step {
    if start.Some? && Peek(body).Err? then Fail(Peek(body).error)
    else if start.Some? && Peek(body).value < start.value then Skip
    else
      match FullPayload(body)
      case Err(e) => Fail(e)
      case Ok(payload) => Write(Written(Stamped(payload, stamp), EmittedNumber(body)))
  }

  function Steps(bodies: seq<seq<byte>>, start: Option<int>, stamp: Stamp): (steps: seq<Step>)
    ensures |steps| == |bodies|
  {
    if bodies == [] then [] else [StepFor(bodies[0], start, stamp)] + Steps(bodies[1..], start, stamp)
  }

  /** The loop over the steps of a stream that ends in `end`. */
  function Collect(steps: seq<Step>, end: End, count: Option<int>): Conversion {
    if steps == [] then Conversion([], StreamEnd(end)) else
    match steps[0]
    case Skip => Collect(steps[1..], end, count)
    case Fail(e) => Conversion([], BodyError(e))
    case Write(item) =>
      if count.Some? && 1 >= count.value then Conversion([item], CountReached)
      else Prepended([item], Collect(steps[1..], end, Less(count, 1)))
  }

  function ConvertFrames(f: Frames, start: Option<int>, count: Option<int>, stamp: Stamp): Conversion {
    Collect(Steps(f.bodies, start, stamp), f.end, count)
  }

  function Less(count: Option<int>, n: nat): Option<int> {
    match count case None => None case Some(c) => Some(c - n)
  }

  method ConvertBody(body: seq<byte>, start: Option<int>, stamp: Stamp) returns (r: Step)
    ensures r == StepFor(body, start, stamp)
  {
    if start.Some? {
      var number := PeekBlockNumber(body);
      if number.Err? {
        return Fail(number.error);
      }
      if number.value < start.value {
        return Skip;
      }
    }
    var decoded := Rlp.Decode(body, 0);
    if decoded.IndexError? {
      return Fail(IndexOutOfRange);
    }
    var payload := PayloadFromRlp(decoded.item);
    if payload.Err? {
      return Fail(payload.error);
    }
    PeekIsEmitted(body);
    var number := ParseHex(payload.value[BlockNumber].text).value;
    return Write(Written(Stamped(payload.value, stamp), number));
  }

  datatype NextStep = Take(step: Step) | NoMore(end: End)

  /** Reading one body from the file and deciding what to do with it. */
  method ReadStep(f: RecordFile, start: Option<int>, stamp: Stamp) returns (r: NextStep)
    requires f.Valid()
    modifies f
    ensures f.Valid()
    ensures match r
            case NoMore(end) =>
              Steps(Split(old(f.Rest())).bodies, start, stamp) == [] && end == Split(old(f.Rest())).end
            case Take(step) =>
              |f.Rest()| < |old(f.Rest())| && Split(f.Rest()).end == Split(old(f.Rest())).end
              && Steps(Split(old(f.Rest())).bodies, start, stamp)
                 == [step] + Steps(Split(f.Rest()).bodies, start, stamp)
  {
    ghost var before := Split(f.Rest());
    var next := f.NextBody();
    if next.Stop? {
      return NoMore(next.end);
    }
    var step := ConvertBody(next.body, start, stamp);
    assert before.bodies[1..] == Split(f.Rest()).bodies;
    return Take(step);
  }

  method Convert(f: RecordFile, start: Option<int>, count: Option<int>, stamp: Stamp)
      returns (written: seq<Written>, end: ConvertEnd, first: Option<nat>, last: Option<nat>)
    requires f.Valid()
    modifies f
    ensures Conversion(written, end) == ConvertFrames(Split(old(f.Rest())), start, count, stamp)
    ensures first == NumberAt(written, 0) && last == NumberAt(written, |written| - 1)
  {
    hide Split, Steps, StepFor, Collect;
    written, first, last := [], None, None;
    PrependNothing(Collect(Steps(Split(f.Rest()).bodies, start, stamp), Split(f.Rest()).end, count));
    ghost var todo := Steps(Split(f.Rest()).bodies, start, stamp);
    ghost var all, tail := todo, Split(f.Rest()).end;
    while true
      invariant f.Valid() && todo == Steps(Split(f.Rest()).bodies, start, stamp) && tail == Split(f.Rest()).end
      invariant Collect(all, tail, count) == Prepended(written, Collect(todo, tail, Less(count, |written|)))
      invariant first == NumberAt(written, 0) && last == NumberAt(written, |written| - 1)
      decreases |f.Rest()|
    {
      var next := ReadStep(f, start, stamp);
      if next.NoMore? {
        CollectNothing(tail, Less(count, |written|), written);
        end := StreamEnd(next.end);
        break;
      }
      todo := Steps(Split(f.Rest()).bodies, start, stamp);
      TakeStep(next.step, todo, tail, written, count);
      if next.step.Fail? {
        end := BodyError(next.step.error);
        break;
      }
      if next.step.Write? {
        var item := next.step.item;
        first := if written == [] then Some(item.number) else first;
        last := Some(item.number);
        written := written + [item];
        if count.Some? && |written| >= count.value {
          end := CountReached;
          break;
        }
      }
    }
  }

  function NumberAt(written: seq<Written>, i: int): Option<nat> {
    if 0 <= i < |written| then Some(written[i].number) else None
  }

  function Prepended(written: seq<Written>, c: Conversion): Conversion {
    Conversion(written + c.written, c.end)
  }

  /** Where the loop stands after one step, given what was written before it. */
  function Advance(step: Step, rest: seq<Step>, end: End, written: seq<Written>, count: Option<int>): Conversion {
    match step
    case Skip => Prepended(written, Collect(rest, end, Less(count, |written|)))
    case Fail(e) => Conversion(written, BodyError(e))
    case Write(item) =>
      if count.Some? && |written| + 1 >= count.value then Conversion(written + [item], CountReached)
      else Prepended(written + [item], Collect(rest, end, Less(count, |written| + 1)))
  }

  lemma PrependNothing(c: Conversion)
    ensures Prepended([], c) == c
  {
    assert [] + c.written == c.written;
  }

  lemma CollectNothing(end: End, count: Option<int>, written: seq<Written>)
    ensures Prepended(written, Collect([], end, count)) == Conversion(written, StreamEnd(end))
  {
    assert written + [] == written;
  }

  lemma TakeStep(step: Step, rest: seq<Step>, end: End, written: seq<Written>, count: Option<int>)
    ensures Prepended(written, Collect([step] + rest, end, Less(count, |written|)))
         == Advance(step, rest, end, written, count)
  {
    assert ([step] + rest)[1..] == rest;
    if step.Write? {
      var more := Collect(rest, end, Less(count, |written| + 1)).written;
      assert written + ([step.item] + more) == written + [step.item] + more;
    }
  }

  // ---------- slicing refines "filter, then take, then decode in full" ----------

  predicate AllWellFormed(bodies: seq<seq<byte>>) {
    forall i | 0 <= i < |bodies| :: WellFormed(bodies[i])
  }

  /** What a full decode of one body is written as. */
  function FullyConverted(body: seq<byte>, stamp: Stamp): Written
    requires WellFormed(body)
  {
    Written(Stamped(FullPayload(body).value, stamp), EmittedNumber(body))
  }

  function AllConverted(bodies: seq<seq<byte>>, stamp: Stamp): (written: seq<Written>)
    requires AllWellFormed(bodies)
    ensures |written| == |bodies|
  {
    seq(|bodies|, i requires 0 <= i < |bodies| => FullyConverted(bodies[i], stamp))
  }

  /** A body that reads as one below the wanted block. It need not be well formed otherwise. */
  predicate Skipped(body: seq<byte>, start: Option<int>) {
    start.Some? && Peek(body).Ok? && Peek(body).value < start.value
  }

  function FromStart(bodies: seq<seq<byte>>, start: Option<int>): seq<seq<byte>> {
    if bodies == [] then []
    else (if Skipped(bodies[0], start) then [] else [bodies[0]]) + FromStart(bodies[1..], start)
  }

  /** The first `count` items, but never fewer than one: the loop writes before it counts. */
  function Taken<T>(items: seq<T>, count: Option<int>): seq<T> {
    match count
    case None => items
    case Some(c) =>
      var limit := if c < 1 then 1 else c;
      if |items| <= limit then items else items[..limit]
  }

  /** The bodies a conversion is to write. */
  function Chosen(bodies: seq<seq<byte>>, start: Option<int>, count: Option<int>): seq<seq<byte>> {
    Taken(FromStart(bodies, start), count)
  }

  /** How many items come before the first that is not good. */
  function Leading<T>(items: seq<T>, good: T -> bool): (n: nat)
    ensures n <= |items| && (forall i | 0 <= i < n :: good(items[i])) && (n < |items| ==> !good(items[n]))
  {
    if items == [] || !good(items[0]) then 0 else
    var n := Leading(items[1..], good);
    assert forall i | 0 < i <= n :: items[i] == items[1..][i - 1];
    n + 1
  }

  /** How many bodies come before the first malformed one. */
  function Sound(bodies: seq<seq<byte>>): (n: nat)
    ensures n <= |bodies| && (forall i | 0 <= i < n :: WellFormed(bodies[i]))
    ensures n < |bodies| ==> !WellFormed(bodies[n])
  {
    Leading(bodies, WellFormed)
  }

  /** The error a malformed body raises. */
  function Defect(body: seq<byte>, start: Option<int>): Error
    requires !WellFormed(body)
  {
    if start.Some? && Peek(body).Err? then Peek(body).error else FullPayload(body).error
  }

  /** Why the loop ends, given all bodies from the start on and what is chosen of them. */
  function ChosenEnd(from: seq<seq<byte>>, start: Option<int>, count: Option<int>, end: End): ConvertEnd {
    var chosen := Taken(from, count);
    if Sound(chosen) < |chosen| then BodyError(Defect(chosen[Sound(chosen)], start))
    else if count.Some? && |from| >= 1 && |from| >= count.value then CountReached
    else StreamEnd(end)
  }

  /** A well-formed body is skipped exactly if the number it would be written with is too low. */
  lemma SkippedByEmittedNumber(body: seq<byte>, start: Option<int>)
    requires WellFormed(body)
    ensures Skipped(body, start) <==> start.Some? && EmittedNumber(body) < start.value
  {
    PeekIsEmitted(body);
  }

  /** What the loop does with any body. */
  lemma StepOfBody(body: seq<byte>, start: Option<int>, stamp: Stamp)
    ensures StepFor(body, start, stamp) ==
            if Skipped(body, start) then Skip
            else if WellFormed(body) then Write(FullyConverted(body, stamp))
            else Fail(Defect(body, start))
  {
    hide Peek, PayloadOf;
    if WellFormed(body) {
      PeekIsEmitted(body);
    }
  }

  /**
   With a start block the peek decides first: a body with too few fields is skipped if its
   number is too low, and fails on its number rather than on its fields. Without one it is
   always the fields.
   */
  lemma PeekDecidesFirst(body: seq<byte>, items: seq<Rlp.Item>, start: int, stamp: Stamp)
    requires Rlp.DecodeAt(body, 0).Decoded? && Rlp.DecodeAt(body, 0).item == Rlp.List(items)
    requires 7 <= |items| < 17
    ensures items[6].Str? ==>
              StepFor(body, Some(start), stamp) == if FromBE(items[6].data) < start then Skip else Fail(ValueError)
    ensures items[6].List? && items[6].items != [] ==> StepFor(body, Some(start), stamp) == Fail(TypeError)
    ensures StepFor(body, None, stamp) == Fail(ValueError)
  {
    hide Rlp.DecodeAt, Peek;
    PeekIsSeventhItem(body, items);
  }

  lemma AllConvertedCons(body: seq<byte>, rest: seq<seq<byte>>, stamp: Stamp)
    requires WellFormed(body) && AllWellFormed(rest)
    ensures AllWellFormed([body] + rest)
    ensures AllConverted([body] + rest, stamp) == [FullyConverted(body, stamp)] + AllConverted(rest, stamp)
  {
    hide WellFormed, FullyConverted;
  }

  lemma TakenCons<T>(head: T, rest: seq<T>, count: Option<int>)
    ensures Taken([head] + rest, count)
         == if count.Some? && count.value <= 1 then [head] else [head] + Taken(rest, Less(count, 1))
  {
    if count.Some? && count.value > 1 && |rest| + 1 > count.value {
      assert ([head] + rest)[..count.value] == [head] + rest[..count.value - 1];
    }
  }

  /** One more sound body in front. */
  lemma SoundCons(body: seq<byte>, rest: seq<seq<byte>>, stamp: Stamp)
    requires WellFormed(body)
    ensures Sound([body] + rest) == Sound(rest) + 1
    ensures AllConverted(([body] + rest)[..Sound(rest) + 1], stamp)
         == [FullyConverted(body, stamp)] + AllConverted(rest[..Sound(rest)], stamp)
  {
    hide WellFormed, FullyConverted, AllConverted;
    assert ([body] + rest)[1..] == rest;
    assert ([body] + rest)[..Sound(rest) + 1] == [body] + rest[..Sound(rest)];
    AllConvertedCons(body, rest[..Sound(rest)], stamp);
  }

  /** What the loop makes of the bodies that are not skipped, in one step. */
  function Expected(from: seq<seq<byte>>, start: Option<int>, count: Option<int>, stamp: Stamp, end: End): Conversion {
    var chosen := Taken(from, count);
    Conversion(AllConverted(chosen[..Sound(chosen)], stamp), ChosenEnd(from, start, count, end))
  }

  lemma ExpectedCons(
    body: seq<byte>, rest: seq<seq<byte>>, start: Option<int>, count: Option<int>, stamp: Stamp, end: End)
    ensures Expected([body] + rest, start, count, stamp, end) ==
            if !WellFormed(body) then Conversion([], BodyError(Defect(body, start)))
            else if count.Some? && count.value <= 1 then Conversion([FullyConverted(body, stamp)], CountReached)
            else Prepended([FullyConverted(body, stamp)], Expected(rest, start, Less(count, 1), stamp, end))
  {
    hide WellFormed, FullyConverted, Defect, Taken;
    TakenCons(body, rest, count);
    var chosen := Taken([body] + rest, count);
    if WellFormed(body) {
      var tail := if count.Some? && count.value <= 1 then [] else Taken(rest, Less(count, 1));
      assert chosen == [body] + tail;
      SoundCons(body, tail, stamp);
    }
  }

  lemma {:induction false} CollectSelected(
    bodies: seq<seq<byte>>, end: End, start: Option<int>, count: Option<int>, stamp: Stamp)
    ensures Collect(Steps(bodies, start, stamp), end, count)
         == Expected(FromStart(bodies, start), start, count, stamp, end)
  {
    hide WellFormed, FullyConverted, Defect, StepFor, Skipped, Expected;
    if bodies == [] {
      ExpectedNothing(start, count, stamp, end);
    } else {
      StepOfBody(bodies[0], start, stamp);
      var rest := FromStart(bodies[1..], start);
      if Skipped(bodies[0], start) {
        CollectSelected(bodies[1..], end, start, count, stamp);
        assert [] + rest == rest;
      } else {
        CollectSelected(bodies[1..], end, start, Less(count, 1), stamp);
        ExpectedCons(bodies[0], rest, start, count, stamp, end);
      }
    }
  }

  lemma ExpectedNothing(start: Option<int>, count: Option<int>, stamp: Stamp, end: End)
    ensures Expected([], start, count, stamp, end) == Conversion([], StreamEnd(end))
  {
  }

  /**
   The slice of any stream is the full decodes of the first `count` bodies from the start on,
   up to the first malformed one of these. What is skipped or comes later may be anything.
   */
  lemma SlicingRefinesFullDecode(data: seq<byte>, start: Option<int>, count: Option<int>, stamp: Stamp)
    ensures var c := ConvertFrames(Split(data), start, count, stamp);
            var chosen := Chosen(Split(data).bodies, start, count);
            c.written == AllConverted(chosen[..Sound(chosen)], stamp)
            && c.end == ChosenEnd(FromStart(Split(data).bodies, start), start, count, Split(data).end)
            && (c.end.BodyError? <==> !AllWellFormed(chosen))
  {
    hide WellFormed, FullyConverted, AllConverted, Defect, Split;
    CollectSelected(Split(data).bodies, Split(data).end, start, count, stamp);
    var chosen := Chosen(Split(data).bodies, start, count);
    assert Sound(chosen) == |chosen| ==> chosen[..Sound(chosen)] == chosen;
  }

  /**
   "Write at most this many records" fails for a count below one, because a record is
   written before the count is looked at: unless the count is zero and there is no record
   to write, or its body is malformed.
   */
  lemma CountIsKeptExactlyIf(data: seq<byte>, start: Option<int>, count: int, stamp: Stamp)
    ensures var from := FromStart(Split(data).bodies, start);
            |ConvertFrames(Split(data), start, Some(count), stamp).written| <= count
            <==> count >= 1 || (count == 0 && (from == [] || !WellFormed(from[0])))
  {
    hide WellFormed, Split, ConvertFrames, FromStart, FullyConverted;
    SlicingRefinesFullDecode(data, start, Some(count), stamp);
  }

  /** How many records a slice of sound bodies has, and which: the first ones from the start on. */
  lemma HowManyAreWritten(data: seq<byte>, start: Option<int>, count: Option<int>, stamp: Stamp)
    requires AllWellFormed(FromStart(Split(data).bodies, start))
    ensures var from, c := FromStart(Split(data).bodies, start), ConvertFrames(Split(data), start, count, stamp);
            |c.written| == (if count.Some? && 1 <= count.value < |from| then count.value
                            else if count.Some? && count.value < 1 && from != [] then 1
                            else |from|)
            && (forall k | 0 <= k < |c.written| :: c.written[k] == FullyConverted(from[k], stamp))
            && c.end == if count.Some? && 1 <= |c.written| && count.value <= |c.written| then CountReached
                        else StreamEnd(Split(data).end)
  {
    hide WellFormed, Split, ConvertFrames, FromStart, FullyConverted, Defect;
    SlicingRefinesFullDecode(data, start, count, stamp);
  }

  // ---------- encoded blocks convert ----------

  /** A tree that an encoder can write as one record, and the converter can turn into a payload. */
  predicate Convertible(t: Rlp.Item) {
    Rlp.Encodable(t) && |Rlp.Encode(t)| < Pow256(4) && PayloadOf(t).Ok?
  }

  lemma EncodedConverts(t: Rlp.Item)
    requires Rlp.Encodable(t)
    ensures FullPayload(Rlp.Encode(t)) == PayloadOf(t)
  {
    hide Rlp.DecodeAt, Rlp.Encode, PayloadOf;
    Rlp.DecodeFront(t, []);
    assert Rlp.Encode(t) + [] == Rlp.Encode(t);
  }

  function EncodedBody(t: Rlp.Item): seq<byte>
    requires Convertible(t)
  {
    Rlp.Encode(t)
  }

  function EncodedBodies(trees: seq<Rlp.Item>): (bodies: seq<seq<byte>>)
    requires forall i | 0 <= i < |trees| :: Convertible(trees[i])
    ensures |bodies| == |trees|
  {
    seq(|trees|, i requires 0 <= i < |trees| => EncodedBody(trees[i]))
  }

  /** From encoder to output file: the stream of any convertible trees converts to their payloads, in order. */
  lemma EncodedStreamConverts(trees: seq<Rlp.Item>, stamp: Stamp)
    requires forall i | 0 <= i < |trees| :: Convertible(trees[i])
    ensures var c := ConvertFrames(Split(Join(EncodedBodies(trees))), None, None, stamp);
            c.end == StreamEnd(Finished) && |c.written| == |trees|
            && forall i | 0 <= i < |trees| :: c.written[i].line == Stamped(PayloadOf(trees[i]).value, stamp)
  {
    hide Rlp.Encodable, Rlp.Encode, PayloadOf, FullPayload, Split, ConvertFrames, Pow256, EmittedNumber;
    var bodies := EncodedBodies(trees);
    forall i | 0 <= i < |bodies|
      ensures FullPayload(bodies[i]) == PayloadOf(trees[i]) && WellFormed(bodies[i])
    {
      EncodedConverts(trees[i]);
    }
    SplitUnique(bodies, [], Finished);
    assert Join(bodies) + [] == Join(bodies);
    NothingIsSkipped(bodies);
    SlicingRefinesFullDecode(Join(bodies), None, None, stamp);
    assert bodies[..Sound(bodies)] == bodies;
  }

  lemma {:induction false} NothingIsSkipped(bodies: seq<seq<byte>>)
    ensures FromStart(bodies, None) == bodies
  {
    if bodies != [] {
      NothingIsSkipped(bodies[1..]);
      assert [bodies[0]] + bodies[1..] == bodies;
    }
  }

  /** A block of empty fields, without transactions and withdrawals. */
  function EmptyBlock(): Rlp.Item {
    Rlp.List(EmptyFields(17))
  }

  function EmptyFields(n: nat): (fields: seq<Rlp.Item>)
    ensures |fields| == n
    ensures forall i | 0 <= i < n :: fields[i] == if i == 13 || i == 14 then Rlp.List([]) else Rlp.Str([])
  {
    seq(n, i => if i == 13 || i == 14 then Rlp.List([]) else Rlp.Str([]))
  }

  lemma {:induction false} EmptyItemsTakeAByte(items: seq<Rlp.Item>)
    requires forall i | 0 <= i < |items| :: items[i] == Rlp.List([]) || items[i] == Rlp.Str([])
    ensures Rlp.AllEncodable(items) && |Rlp.EncodeItems(items)| == |items|
  {
    if items != [] {
      EmptyItemsTakeAByte(items[1..]);
      EmptyItem(items[0]);
    }
  }

  lemma EmptyItem(item: Rlp.Item)
    requires item == Rlp.List([]) || item == Rlp.Str([])
    ensures Rlp.Encodable(item) && |Rlp.Encode(item)| == 1
  {
    assert Rlp.EncodeItems([]) == [];
  }

  lemma {:induction false} EmptyScalars(fields: seq<Rlp.Item>, n: nat)
    requires 17 <= |fields| && n <= |FIELDS|
    requires forall j | 0 <= j < n :: fields[ScalarIndex(j)] == Rlp.Str([])
    ensures Scalars(fields, n).Ok?
  {
    if n > 0 {
      EmptyScalars(fields, n - 1);
    }
  }

  lemma EmptyBlockIsConvertible()
    ensures Convertible(EmptyBlock())
  {
    hide Scalars, Rlp.EncodeItems, Rlp.AllEncodable;
    var fields := EmptyFields(17);
    EmptyItemsTakeAByte(fields);
    EmptyScalars(fields, |FIELDS|);
    PowersOf256();
    assert Rlp.Encodable(EmptyBlock()) && |Rlp.Encode(EmptyBlock())| == 18;
  }

  lemma PowersOf256()
    ensures 18 <= Pow256(4) && 18 <= Pow256(8)
  {
    assert Pow256(4) == 256 * Pow256(3) && Pow256(8) == 256 * Pow256(7);
  }

  /** A stream of that one block, converted with `--count 0`, comes out with one record. */
  lemma CountZeroWritesOne(stamp: Stamp)
    ensures Convertible(EmptyBlock())
    ensures |ConvertFrames(Split(Join([Rlp.Encode(EmptyBlock())])), None, Some(0), stamp).written| == 1
  {
    hide Rlp.Encodable, Rlp.Encode, PayloadOf, FullPayload, Split, ConvertFrames, Pow256, EmittedNumber, EmptyBlock;
    EmptyBlockIsConvertible();
    var body := Rlp.Encode(EmptyBlock());
    EncodedConverts(EmptyBlock());
    SplitUnique([body], [], Finished);
    assert Join([body]) + [] == Join([body]);
    NothingIsSkipped([body]);
    SlicingRefinesFullDecode(Join([body]), None, Some(0), stamp);
  }

  /** Bodies that read as numbered one after another from `from`. */
  predicate Consecutive(bodies: seq<seq<byte>>, from: nat) {
    forall i | 0 <= i < |bodies| :: Peek(bodies[i]) == Ok(from + i)
  }

  /** A slice of consecutively numbered bodies is a gapless block range that begins at the first wanted one. */
  lemma SliceIsContiguous(data: seq<byte>, from: nat, start: Option<int>, count: Option<int>, stamp: Stamp)
    requires Consecutive(Split(data).bodies, from)
    ensures var written := ConvertFrames(Split(data), start, count, stamp).written;
            var first := if start.Some? && start.value > from then start.value else from;
            forall k | 0 <= k < |written| :: written[k].number == first + k
  {
    hide Split, Peek, Collect, Steps, WellFormed;
    var bodies := Split(data).bodies;
    SlicingRefinesFullDecode(data, start, count, stamp);
    FromStartIsContiguous(bodies, from, start);
    var written := ConvertFrames(Split(data), start, count, stamp).written;
    var chosen := Chosen(bodies, start, count);
    forall k | 0 <= k < |written|
      ensures WellFormed(chosen[k]) && written[k].number == EmittedNumber(chosen[k])
              && Peek(chosen[k]) == Ok(EmittedNumber(chosen[k])) && chosen[k] == FromStart(bodies, start)[k]
    {
      assert chosen[..Sound(chosen)][k] == chosen[k];
      PeekIsEmitted(chosen[k]);
    }
  }

  lemma {:induction false} FromStartIsContiguous(bodies: seq<seq<byte>>, from: nat, start: Option<int>)
    requires Consecutive(bodies, from)
    ensures var items := FromStart(bodies, start);
            var first := if start.Some? && start.value > from then start.value else from;
            |items| == (if from + |bodies| > first then from + |bodies| - first else 0)
            && forall k | 0 <= k < |items| :: Peek(items[k]) == Ok(first + k)
  {
    hide Peek;
    if bodies != [] {
      forall i | 0 <= i < |bodies| - 1 ensures Peek(bodies[1..][i]) == Ok(from + 1 + i) {
        assert bodies[1..][i] == bodies[i + 1];
      }
      FromStartIsContiguous(bodies[1..], from + 1, start);
    }
  }
}
