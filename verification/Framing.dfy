/** The record stream: each body preceded by its length in four big-endian bytes. */
module Framing {
  import opened Bytes

  /** How reading a stream ends: at its end, or in one of the two `ValueError`s. */
  datatype End = Finished | TruncatedPrefix | ShortRecord(claimed: nat, left: nat)

  datatype Frames = Frames(bodies: seq<seq<byte>>, end: End)

  /** What the stream `data` holds: the bodies up to its end or to its first malformed record. */
  function Split(data: seq<byte>): Frames {
    if data == [] then Frames([], Finished)
    else if |data| < 4 then Frames([], TruncatedPrefix)
    else
      var length := FromBE(data[..4]);
      if |data| < 4 + length then Frames([], ShortRecord(length, |data| - 4))
      else
        var rest := Split(data[4 + length..]);
        Frames([data[4..4 + length]] + rest.bodies, rest.end)
  }

  function Prepend(bodies: seq<seq<byte>>, f: Frames): Frames {
    Frames(bodies + f.bodies, f.end)
  }

  /** The stream from offset `off` on, read off the whole of it. */
  lemma SplitFrom(data: seq<byte>, off: nat)
    requires off < |data|
    ensures Split(data[off..]) ==
            if |data| < off + 4 then Frames([], TruncatedPrefix) else
            var length, start := FromBE(data[off..off + 4]), off + 4;
            if |data| < start + length then Frames([], ShortRecord(length, |data| - start))
            else Prepend([data[start..start + length]], Split(data[start + length..]))
  {
    hide FromBE;
    var rest := data[off..];
    if off + 4 <= |data| {
      assert rest[..4] == data[off..off + 4];
      var length := FromBE(rest[..4]);
      if off + 4 + length <= |data| {
        assert rest[4..4 + length] == data[off + 4..off + 4 + length];
        assert rest[4 + length..] == data[off + 4 + length..];
      }
    }
  }

  lemma PrependMore(bodies: seq<seq<byte>>, body: seq<byte>, f: Frames)
    ensures Prepend(bodies, Prepend([body], f)) == Prepend(bodies + [body], f)
    ensures Prepend([], f) == f
  {
    assert bodies + ([body] + f.bodies) == bodies + [body] + f.bodies;
    assert [] + f.bodies == f.bodies;
  }

  /** The in-memory reader, over offsets into the whole stream. */
  method IterRecords(data: seq<byte>) returns (f: Frames)
    ensures f == Split(data)
  {
    hide Split, FromBE;
    var off, n, bodies := 0, |data|, [];
    PrependMore([], [], Split(data));
    assert data[0..] == data;
    while off < n
      invariant off <= n
      invariant Split(data) == Prepend(bodies, Split(data[off..]))
    {
      SplitFrom(data, off);
      if n < off + 4 {
        return Frames(bodies, TruncatedPrefix);
      }
      var length := FromBE(data[off..off + 4]);
      off := off + 4;
      if n < off + length {
        return Frames(bodies, ShortRecord(length, n - off));
      }
      var body := data[off..off + length];
      PrependMore(bodies, body, Split(data[off + length..]));
      bodies, off := bodies + [body], off + length;
    }
    SplitNothing();
    assert data[n..] == [];
    return Frames(bodies, Finished);
  }

  lemma SplitNothing()
    ensures Split([]) == Frames([], Finished)
  {
  }

  datatype Next = Body(body: seq<byte>) | Stop(end: End)

  /** An open binary file, and the generator that reads one record from it at a time. */
  class RecordFile {
    const data: seq<byte>
    var pos: nat

    ghost predicate Valid()
      reads this
    {
      pos <= |data|
    }

    ghost function Rest(): seq<byte>
      requires Valid()
      reads this
    {
      data[pos..]
    }

    constructor (data: seq<byte>)
      ensures Valid() && Rest() == this.data == data
    {
      this.data, pos := data, 0;
    }

    /** `f.read(n)`: up to `n` bytes, fewer only at the end of the file. */
    method Read(n: nat) returns (s: seq<byte>)
      requires Valid()
      modifies this
      ensures Valid()
      ensures s == Slice(old(Rest()), 0, n) && Rest() == old(Rest())[|s|..]
    {
      s := Slice(data, pos, pos + n);
      pos := pos + |s|;
    }

    /** One step of the generator: the next body, or how the stream ends. */
    method NextBody() returns (r: Next)
      requires Valid()
      modifies this
      ensures Valid()
      ensures match r
              case Body(body) => Split(old(Rest())) == Prepend([body], Split(Rest()))
                                 && |Rest()| < |old(Rest())|
              case Stop(end) => Split(old(Rest())) == Frames([], end)
    {
      hide FromBE;
      ghost var rest := Rest();
      var lenPrefix := Read(4);
      if lenPrefix == [] {
        return Stop(Finished);
      }
      if |lenPrefix| < 4 {
        return Stop(TruncatedPrefix);
      }
      var length := FromBE(lenPrefix);
      var body := Read(length);
      if |body| < length {
        return Stop(ShortRecord(length, |body|));
      }
      assert body == rest[4..4 + length] && Rest() == rest[4 + length..];
      return Body(body);
    }
  }

  /** The streaming reader, run to its end. It yields what the in-memory reader yields. */
  method IterRecordBodies(f: RecordFile) returns (r: Frames)
    requires f.Valid()
    modifies f
    ensures r == Split(old(f.Rest()))
  {
    var bodies := [];
    while true
      invariant f.Valid()
      invariant Split(old(f.Rest())) == Prepend(bodies, Split(f.Rest()))
      decreases |f.Rest()|
    {
      var next := f.NextBody();
      match next
      case Stop(end) =>
        return Frames(bodies, end);
      case Body(body) =>
        PrependMore(bodies, body, Split(f.Rest()));
        bodies := bodies + [body];
    }
  }

  // ---------- writing streams ----------

  predicate Framable(bodies: seq<seq<byte>>) {
    forall i | 0 <= i < |bodies| :: |bodies[i]| < Pow256(4)
  }

  function Frame(body: seq<byte>): seq<byte> {
    ToFixedBE(|body|, 4) + body
  }

  function Join(bodies: seq<seq<byte>>): seq<byte> {
    if bodies == [] then [] else Frame(bodies[0]) + Join(bodies[1..])
  }

  lemma SplitFrame(body: seq<byte>, rest: seq<byte>)
    requires |body| < Pow256(4)
    ensures Split(Frame(body) + rest) == Prepend([body], Split(rest))
  {
    var data := Frame(body) + rest;
    FromToFixedBE(|body|, 4);
    assert data[..4] == ToFixedBE(|body|, 4);
    assert data[4..4 + |body|] == body && data[4 + |body|..] == rest;
  }

  /** Reading a framed sequence of bodies, then anything else, returns exactly those bodies first. */
  lemma {:induction false} SplitJoin(bodies: seq<seq<byte>>, rest: seq<byte>)
    requires Framable(bodies)
    ensures Split(Join(bodies) + rest) == Prepend(bodies, Split(rest))
  {
    hide Frame;
    if bodies == [] {
      assert [] + rest == rest;
    } else {
      var more := Join(bodies[1..]) + rest;
      calc {
        Split(Join(bodies) + rest);
        { assert Join(bodies) + rest == Frame(bodies[0]) + more; }
        Split(Frame(bodies[0]) + more);
        { SplitFrame(bodies[0], more); }
        Prepend([bodies[0]], Split(more));
        { SplitJoin(bodies[1..], rest); }
        Prepend([bodies[0]], Prepend(bodies[1..], Split(rest)));
        { assert [bodies[0]] + bodies[1..] == bodies; }
        Prepend(bodies, Split(rest));
      }
    }
  }

  /** Bytes that begin a record but do not complete it, and the error they raise. */
  predicate Incomplete(rest: seq<byte>, end: End) {
    match end
    case Finished => rest == []
    case TruncatedPrefix => 0 < |rest| < 4
    case ShortRecord(claimed, left) =>
      4 <= |rest| && claimed == FromBE(rest[..4]) && left == |rest| - 4 < claimed
  }

  /**
   Every stream is a framed sequence of bodies followed by an incomplete record, and the
   readers report just those: nothing is skipped, invented or lost before the first error.
   */
  lemma {:induction false} JoinSplit(data: seq<byte>)
    ensures Framable(Split(data).bodies)
    ensures exists rest :: data == Join(Split(data).bodies) + rest && Incomplete(rest, Split(data).end)
  {
    hide FromBE, ToFixedBE, Frame, Join;
    if 4 <= |data| && 4 + FromBE(data[..4]) <= |data| {
      var length := FromBE(data[..4]);
      var body, tail := data[4..4 + length], data[4 + length..];
      JoinSplit(tail);
      var rest :| tail == Join(Split(tail).bodies) + rest && Incomplete(rest, Split(tail).end);
      FrameOf(data, length);
      JoinCons(body, Split(tail).bodies, tail, rest);
      assert data == Join(Split(data).bodies) + rest;
    } else {
      NoFrame(data);
    }
  }

  lemma NoFrame(data: seq<byte>)
    requires |data| < 4 || |data| < 4 + FromBE(data[..4])
    ensures data == Join(Split(data).bodies) + data && Incomplete(data, Split(data).end)
  {
    hide FromBE;
  }

  lemma FrameOf(data: seq<byte>, length: nat)
    requires 4 <= |data| && length == FromBE(data[..4]) && 4 + length <= |data|
    ensures length < Pow256(4)
    ensures data == Frame(data[4..4 + length]) + data[4 + length..]
  {
    FixedFromBE(data[..4]);
  }

  lemma JoinCons(body: seq<byte>, bodies: seq<seq<byte>>, tail: seq<byte>, rest: seq<byte>)
    requires tail == Join(bodies) + rest
    ensures Frame(body) + tail == Join([body] + bodies) + rest
  {
    hide Frame;
    assert ([body] + bodies)[1..] == bodies;
    assert Frame(body) + (Join(bodies) + rest) == Frame(body) + Join(bodies) + rest;
  }

  /** That reading of a stream is the only one, so both readers accept exactly the framed sequences. */
  lemma SplitUnique(bodies: seq<seq<byte>>, rest: seq<byte>, end: End)
    requires Framable(bodies) && Incomplete(rest, end)
    ensures Split(Join(bodies) + rest) == Frames(bodies, end)
  {
    hide FromBE;
    SplitJoin(bodies, rest);
    assert bodies + [] == bodies;
  }
}
