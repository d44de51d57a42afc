/** From the bytes of a stream, through the converter and the loader, to the runs of the replay driver. */
module EndToEnd {
  import opened Bytes
  import opened Converter
  import opened Engine
  import opened Framing
  import opened Hex
  import opened Payload
  import opened Protocol
  import opened Records
  import opened Replay
  import opened Wrappers
  import Rlp

  // ---------- what a run's end says ----------

  /** A run over `recs` that ended with `o`: its calls, and the machine they drove. */
  predicate RunOf(o: Replay.Outcome, recs: seq<PayloadRecord>, loadError: Option<Error>, stopAt: Option<nat>,
                  s: Settings, events: seq<Event>, p: Phase) {
    After(recs, s, events).phase == p && Explains(o, recs, loadError, stopAt, s, p)
  }

  /**
   A normal end: every wanted record was sent once, landed, and left its own row and no
   failure; and with the head advancing, the client's head is the last replayed block.
   */
  lemma NormalEnd(recs: seq<PayloadRecord>, loadError: Option<Error>, stopAt: Option<nat>, s: Settings,
                  events: seq<Event>, p: Phase, head: Option<string>)
    requires RunOf(Replay.Finished, recs, loadError, stopAt, s, events, p) && Honest(events, head)
    ensures p.Ready? && p.i <= |recs|
    ensures p.i == |recs| || (s.count.Some? && p.i == if s.count.value < 0 then 0 else s.count.value)
    ensures SentInOrder(recs, s, Payloads(events), p.i)
    ensures |After(recs, s, events).rows| == p.i && GoodRows(recs, s, After(recs, s, events).rows, p.i)
    ensures s.advanceHead ==> HeadAfter(events, head) == if p.i == 0 then head else recs[p.i - 1].blockHash
    ensures !s.advanceHead ==> HeadAfter(events, head) == head
  {
    hide After, Honest, GoodRow, NewPayloadParams, Chained;
    PayloadsInOrder(recs, s, events);
    BooksBalance(recs, s, events);
    if s.advanceHead {
      HeadIsTracked(recs, s, events, head);
    } else {
      HeadIsLeftAlone(recs, s, events, head);
    }
    if p.i < |recs| && p.i > 0 {
      assert Within(s, p.i - 1);
    }
  }

  /** The records up to `k` are chained and wanted, and `k` is the first that is not chained. */
  predicate FirstGap(recs: seq<PayloadRecord>, s: Settings, k: nat) {
    k < |recs| && Within(s, k) && !Chained(recs, k) && forall j | 0 <= j < k :: Chained(recs, j)
  }

  /**
   The chain gap is raised only at the first broken link, with a row and a payload for
   each record before it and none for it.
   */
  lemma GapStopsTheReplay(recs: seq<PayloadRecord>, loadError: Option<Error>, stopAt: Option<nat>, s: Settings,
                          events: seq<Event>, p: Phase)
    requires RunOf(Raised(ChainGap), recs, loadError, stopAt, s, events, p)
    ensures p.Ready? && FirstGap(recs, s, p.i)
    ensures |After(recs, s, events).rows| == p.i && |Payloads(events)| == p.i
  {
    hide After, GoodRow, NewPayloadParams, Chained;
    PayloadsInOrder(recs, s, events);
    BooksBalance(recs, s, events);
  }

  /** Every record before `k` has a version there is a call for. */
  predicate VersionsSupported(recs: seq<PayloadRecord>, s: Settings, k: nat)
    requires k <= |recs|
  {
    forall j | 0 <= j < k :: NewPayloadParams(s.forcedVersion, recs[j]).Ok?
  }

  /** And it is raised there by every client that accepts what comes before. */
  lemma GapIsFound(o: Replay.Outcome, recs: seq<PayloadRecord>, loadError: Option<Error>, s: Settings,
                   events: seq<Event>, p: Phase, k: nat)
    requires RunOf(o, recs, loadError, None, s, events, p) && FirstGap(recs, s, k)
    requires NotRefused(events) && VersionsSupported(recs, s, k)
    ensures o == Raised(ChainGap) && p == Ready(k)
    ensures |After(recs, s, events).rows| == k && |Payloads(events)| == k
  {
    hide After, NewPayloadParams, Chained, GoodRow;
    PayloadsInOrder(recs, s, events);
    BooksBalance(recs, s, events);
    if p.Halted? {
      HaltsOnlyOnRefusal(recs, s, events);
    }
  }

  /** All wanted records are chained. */
  predicate AllChained(recs: seq<PayloadRecord>, s: Settings) {
    forall j | 0 <= j < |recs| && Within(s, j) :: Chained(recs, j)
  }

  lemma {:induction false} SomeGapIsFirst(recs: seq<PayloadRecord>, s: Settings, j: nat)
    requires j < |recs| && Within(s, j) && !Chained(recs, j)
    ensures exists k: nat :: FirstGap(recs, s, k)
  {
    hide Chained;
    if i: nat :| i < j && !Chained(recs, i) {
      SomeGapIsFirst(recs, s, i);
    } else {
      assert FirstGap(recs, s, j);
    }
  }

  /** For such a client and a file that loads, the replay ends normally exactly if all links hold, and else at a gap. */
  lemma GapExactlyIfUnchained(o: Replay.Outcome, recs: seq<PayloadRecord>, s: Settings, events: seq<Event>, p: Phase)
    requires RunOf(o, recs, None, None, s, events, p)
    requires NotRefused(events) && VersionsSupported(recs, s, |recs|)
    ensures o == Replay.Finished <==> AllChained(recs, s)
    ensures o == Raised(ChainGap) <==> !AllChained(recs, s)
  {
    hide After, NewPayloadParams, Chained;
    if p.Halted? {
      HaltsOnlyOnRefusal(recs, s, events);
    }
    if !AllChained(recs, s) {
      var j: nat :| j < |recs| && Within(s, j) && !Chained(recs, j);
      SomeGapIsFirst(recs, s, j);
      var k: nat :| FirstGap(recs, s, k);
      GapIsFound(o, recs, None, s, events, p, k);
    }
  }

  // ---------- from bytes to records ----------

  /** The bytes of field `idx` of a well-formed body. */
  function FieldBytes(body: seq<byte>, idx: nat): seq<byte>
    requires WellFormed(body) && idx < 13
  {
    var item := Rlp.DecodeAt(body, 0).item.items[idx];
    if item.Str? then item.data else []
  }

  function ParentBytes(body: seq<byte>): seq<byte>
    requires WellFormed(body)
  {
    FieldBytes(body, 0)
  }

  function HashBytes(body: seq<byte>): seq<byte>
    requires WellFormed(body)
  {
    FieldBytes(body, 12)
  }

  function Lines(written: seq<Written>): (lines: seq<Line>)
    ensures |lines| == |written|
    ensures forall i | 0 <= i < |lines| :: lines[i] == written[i].line
  {
    seq(|written|, i requires 0 <= i < |written| => written[i].line)
  }

  /** The record a written body loads back as. */
  lemma LoadedRecord(body: seq<byte>, stamp: Stamp)
    requires WellFormed(body)
    ensures var line := FullyConverted(body, stamp).line;
            line.Record? && LoadLine(line).Ok?
            && var r := LoadLine(line).value;
               r.blockHash == Some(ToData(HashBytes(body))) && Parent(r) == Some(ToData(ParentBytes(body)))
               && r.blockNumber == EmittedNumber(body) && r.payload == FullPayload(body).value
               && r.newpayloadVersion == Some(stamp.newpayloadVersion) && r.fork == Some(stamp.fork)
               && r.parentBeaconBlockRoot == stamp.parentBeaconBlockRoot
               && r.versionedHashes == Some(stamp.versionedHashes)
               && r.executionRequests == Some(stamp.executionRequests)
  {
    hide Rlp.DecodeAt, ParseHex, ToData;
    PeekIsEmitted(body);
    var fields := Rlp.DecodeAt(body, 0).item.items;
    PayloadAt(fields, 0);
    PayloadAt(fields, 12);
  }

  /**
   A converted record, stamped for version 4 and not overridden, is sent by
   `engine_newPayloadV4` with the object of its own body and the stamped extras.
   */
  lemma ConvertedRecordIsSentAsStamped(body: seq<byte>, stamp: Stamp, forced: Option<int>)
    requires WellFormed(body) && stamp.newpayloadVersion == 4 && (forced == None || forced == Some(0))
    ensures LoadLine(FullyConverted(body, stamp).line).Ok?
    ensures NewPayloadParams(forced, LoadLine(FullyConverted(body, stamp).line).value)
         == Ok(V4(FullPayload(body).value, stamp.versionedHashes, stamp.parentBeaconBlockRoot, stamp.executionRequests))
  {
    hide LoadLine, FullyConverted, FullPayload;
    LoadedRecord(body, stamp);
  }

  /** Records written from `bodies`, and loaded back. */
  predicate Loads(bodies: seq<seq<byte>>, stamp: Stamp, recs: seq<PayloadRecord>)
    requires AllWellFormed(bodies)
  {
    |recs| == |bodies|
    && forall i | 0 <= i < |bodies| :: Ok(recs[i]) == LoadLine(FullyConverted(bodies[i], stamp).line)
  }

  /** The link between two written bodies holds exactly when their bytes say so. */
  lemma LinkIsByteEquality(bodies: seq<seq<byte>>, stamp: Stamp, recs: seq<PayloadRecord>, i: nat)
    requires AllWellFormed(bodies) && Loads(bodies, stamp, recs) && 0 < i < |bodies|
    ensures Chained(recs, i) <==> ParentBytes(bodies[i]) == HashBytes(bodies[i - 1])
  {
    hide LoadLine, FullyConverted, ToData, FieldBytes;
    LoadedRecord(bodies[i], stamp);
    LoadedRecord(bodies[i - 1], stamp);
    DataInjective(ParentBytes(bodies[i]), HashBytes(bodies[i - 1]));
  }

  // ---------- from a stream to a run ----------

  /** The bodies a conversion writes. */
  function Used(data: seq<byte>, start: Option<int>, count: Option<int>): (used: seq<seq<byte>>)
    ensures AllWellFormed(used)
  {
    hide WellFormed;
    var chosen := Chosen(Split(data).bodies, start, count);
    chosen[..Sound(chosen)]
  }

  /** What the loader makes of the converter's output file. */
  function Reloaded(data: seq<byte>, start: Option<int>, count: Option<int>, stamp: Stamp): Loaded {
    LoadPayloads(Lines(ConvertFrames(Split(data), start, count, stamp).written))
  }

  /** Converting a slice of any stream and loading it gives the records of the bodies written, without an error. */
  lemma ConvertedStreamLoads(data: seq<byte>, start: Option<int>, count: Option<int>, stamp: Stamp)
    ensures Reloaded(data, start, count, stamp).error.None?
    ensures Loads(Used(data, start, count), stamp, Reloaded(data, start, count, stamp).records)
  {
    hide Split, ConvertFrames, WellFormed, LoadLine, FullyConverted, LoadPayloads;
    SlicingRefinesFullDecode(data, start, count, stamp);
    var written := ConvertFrames(Split(data), start, count, stamp).written;
    var used := Used(data, start, count);
    var lines := Lines(written);
    forall i | 0 <= i < |lines|
      ensures lines[i] == FullyConverted(used[i], stamp).line && lines[i].Record? && LoadLine(lines[i]).Ok?
    {
      LoadedRecord(used[i], stamp);
    }
    LoadsLineByLine(lines);
  }

  predicate ByteLinked(bodies: seq<seq<byte>>, i: nat)
    requires AllWellFormed(bodies) && 0 < i < |bodies|
  {
    ParentBytes(bodies[i]) == HashBytes(bodies[i - 1])
  }

  /** The first body whose parent hash is not the block hash of the one before it. */
  predicate FirstByteGap(bodies: seq<seq<byte>>, k: nat)
    requires AllWellFormed(bodies)
  {
    0 < k < |bodies| && !ByteLinked(bodies, k) && forall j | 0 < j < k :: ByteLinked(bodies, j)
  }

  lemma GapsAgree(bodies: seq<seq<byte>>, stamp: Stamp, recs: seq<PayloadRecord>, s: Settings, k: nat)
    requires AllWellFormed(bodies) && Loads(bodies, stamp, recs)
    ensures FirstGap(recs, s, k) <==> FirstByteGap(bodies, k) && Within(s, k)
  {
    hide WellFormed, LoadLine, FullyConverted, Chained, ByteLinked;
    forall j | 0 < j < |bodies| ensures Chained(recs, j) <==> ByteLinked(bodies, j) {
      LinkAgrees(bodies, stamp, recs, j);
    }
    forall j | 0 <= j < |recs| && j == 0 ensures Chained(recs, j) {
      FirstIsChained(recs);
    }
  }

  lemma LinkAgrees(bodies: seq<seq<byte>>, stamp: Stamp, recs: seq<PayloadRecord>, i: nat)
    requires AllWellFormed(bodies) && Loads(bodies, stamp, recs) && 0 < i < |bodies|
    ensures Chained(recs, i) <==> ByteLinked(bodies, i)
  {
    LinkIsByteEquality(bodies, stamp, recs, i);
  }

  lemma FirstIsChained(recs: seq<PayloadRecord>)
    requires recs != []
    ensures Chained(recs, 0)
  {
  }

  /**
   The pipeline: a stream is sliced, written, loaded and replayed. A chain gap is raised
   only at the first place where a body's parentHash bytes differ from the blockHash bytes
   of the body before, with one row and one payload for every record before the gap and
   none for the record at it.
   */
  lemma EndToEnd(data: seq<byte>, start: Option<int>, count: Option<int>, stamp: Stamp,
                 o: Replay.Outcome, stopAt: Option<nat>, s: Settings, events: seq<Event>, p: Phase)
    requires var loaded := Reloaded(data, start, count, stamp);
             RunOf(o, loaded.records, loaded.error, stopAt, s, events, p)
    ensures o == Raised(ChainGap) ==>
              var run := After(Reloaded(data, start, count, stamp).records, s, events);
              p.Ready? && FirstByteGap(Used(data, start, count), p.i) && Within(s, p.i)
              && |run.rows| == p.i && |Payloads(events)| == p.i
  {
    hide Split, After, Reloaded, Explains, Used;
    var loaded, used := Reloaded(data, start, count, stamp), Used(data, start, count);
    ConvertedStreamLoads(data, start, count, stamp);
    if o == Raised(ChainGap) {
      GapStopsTheReplay(loaded.records, loaded.error, stopAt, s, events, p);
      GapsAgree(used, stamp, loaded.records, s, p.i);
    }
  }

  /** All wanted bodies are linked, byte for byte, to the ones before them. */
  predicate AllLinked(bodies: seq<seq<byte>>, s: Settings)
    requires AllWellFormed(bodies)
  {
    forall j | 0 < j < |bodies| && Within(s, j) :: ByteLinked(bodies, j)
  }

  /** A stamp, or a version forced over it, that there is a call for. */
  predicate SupportedStamp(forced: Option<int>, stamp: Stamp) {
    var version := Or(forced, Or(Some(stamp.newpayloadVersion), VersionForFork(Some(stamp.fork))));
    version.Some? ==> 1 <= version.value <= 4
  }

  /**
   The pipeline with a supported stamp and a client that accepts what it is sent: the replay
   ends normally exactly if the bodies are linked byte for byte. Otherwise it stops at the
   first gap, with exactly the rows and the payloads before it.
   */
  lemma EndToEndExactly(data: seq<byte>, start: Option<int>, count: Option<int>, stamp: Stamp,
                        o: Replay.Outcome, s: Settings, events: seq<Event>, p: Phase, k: nat)
    requires var loaded := Reloaded(data, start, count, stamp);
             RunOf(o, loaded.records, loaded.error, None, s, events, p)
    requires NotRefused(events) && SupportedStamp(s.forcedVersion, stamp)
    ensures o == Replay.Finished <==> AllLinked(Used(data, start, count), s)
    ensures o == Raised(ChainGap) <==> !AllLinked(Used(data, start, count), s)
    ensures FirstByteGap(Used(data, start, count), k) && Within(s, k) ==>
              o == Raised(ChainGap) && p == Ready(k) && |Payloads(events)| == k
              && |After(Reloaded(data, start, count, stamp).records, s, events).rows| == k
  {
    hide Split, After, Reloaded, Explains, Used, Accepts, SupportedStamp, Chained, ByteLinked;
    var recs, used := Reloaded(data, start, count, stamp).records, Used(data, start, count);
    ConvertedStreamLoads(data, start, count, stamp);
    StampedVersionsSupported(used, stamp, recs, s);
    LinksAgree(used, stamp, recs, s);
    GapExactlyIfUnchained(o, recs, s, events, p);
    GapsAgree(used, stamp, recs, s, k);
    if FirstGap(recs, s, k) {
      GapIsFound(o, recs, None, s, events, p, k);
    }
  }

  /**
   The pipeline itself, run: the file is converted, its output loaded, and the driver replays
   it. What is said above of runs holds of this one, and of what the driver and the client
   have to show for it.
   */
  method ReplayStream(f: RecordFile, driver: ReplayDriver, start: Option<int>, count: Option<int>, stamp: Stamp,
                      stopAt: Option<nat>)
      returns (o: Replay.Outcome, ghost p: Phase)
    requires f.Valid()
    modifies f, driver, driver.client, driver.csv
    ensures driver.client.trace == old(driver.client.trace) + driver.events
    ensures driver.Watched()
    ensures var used := Used(old(f.Rest()), start, count);
            (o == Raised(ChainGap) ==>
               p.Ready? && FirstByteGap(used, p.i) && Within(driver.settings, p.i)
               && |driver.rows| == p.i && |Payloads(driver.events)| == p.i)
            && (stopAt.None? && NotRefused(driver.events) && SupportedStamp(driver.settings.forcedVersion, stamp) ==>
                  (o == Replay.Finished <==> AllLinked(used, driver.settings))
                  && (o == Raised(ChainGap) <==> !AllLinked(used, driver.settings)))
  {
    hide After, Split, Explains, Used, Accepts, SupportedStamp, AllLinked, FirstByteGap, ConvertFrames, LoadPayloads;
    ghost var data := f.Rest();
    var written, end, first, last := Convert(f, start, count, stamp);
    var loaded := LoadPayloads(Lines(written));
    o, p := driver.Run(loaded.records, loaded.error, stopAt);
    assert loaded == Reloaded(data, start, count, stamp);
    EndToEnd(data, start, count, stamp, o, stopAt, driver.settings, driver.events, p);
    if stopAt.None? && NotRefused(driver.events) && SupportedStamp(driver.settings.forcedVersion, stamp) {
      EndToEndExactly(data, start, count, stamp, o, driver.settings, driver.events, p, 0);
    }
  }

  lemma LinksAgree(bodies: seq<seq<byte>>, stamp: Stamp, recs: seq<PayloadRecord>, s: Settings)
    requires AllWellFormed(bodies) && Loads(bodies, stamp, recs)
    ensures AllLinked(bodies, s) <==> AllChained(recs, s)
  {
    hide WellFormed, LoadLine, FullyConverted, Chained, ByteLinked;
    forall j | 0 < j < |bodies| ensures Chained(recs, j) <==> ByteLinked(bodies, j) {
      LinkAgrees(bodies, stamp, recs, j);
    }
    if recs != [] {
      FirstIsChained(recs);
    }
  }

  lemma StampedVersionsSupported(bodies: seq<seq<byte>>, stamp: Stamp, recs: seq<PayloadRecord>, s: Settings)
    requires AllWellFormed(bodies) && Loads(bodies, stamp, recs) && SupportedStamp(s.forcedVersion, stamp)
    ensures VersionsSupported(recs, s, |recs|)
  {
    hide WellFormed, LoadLine, FullyConverted;
    forall j | 0 <= j < |recs| ensures NewPayloadParams(s.forcedVersion, recs[j]).Ok? {
      LoadedRecord(bodies[j], stamp);
      VersionIsSupported(s.forcedVersion, recs[j]);
    }
  }

  /** The version error is raised exactly for a version, forced, stamped or of the fork, that is not 1 to 4. */
  lemma VersionIsSupported(forced: Option<int>, r: PayloadRecord)
    ensures NewPayloadParams(forced, r).Err? <==>
            ResolvedVersion(forced, r).Some? && !(1 <= ResolvedVersion(forced, r).value <= 4)
  {
  }
}
