/** The replay driver: it feeds recorded payloads to an execution client and keeps the latency file. */
module Replay {
  import opened Engine
  import opened Payload
  import opened Protocol
  import opened Records
  import opened Wrappers

  /**
   An execution client and its clock. It may answer anything, or throw, and take any time;
   only a forkchoice moves its head. Time passes in calls and sleeps.
   */
  class ExecutionClient {
    var now: real
    var head: Option<string>
    var trace: seq<Event>

    method Answer() returns (reply: Reply)
      modifies this`now
      ensures old(now) <= now
    {
      reply := *;
      var took: real := *;
      now := if took >= 0.0 then now + took else now;
    }

    method CallNewPayload(params: Params) returns (reply: Reply)
      modifies this
      ensures old(now) <= now && head == old(head)
      ensures trace == old(trace) + [Event(NewPayload(params), old(now), now, reply, head)]
    {
      var begin := now;
      reply := Answer();
      trace := trace + [Event(NewPayload(params), begin, now, reply, head)];
    }

    method CallForkchoice(hash: Option<string>) returns (reply: Reply)
      modifies this
      ensures old(now) <= now
      ensures trace == old(trace) + [Event(Forkchoice(hash), old(now), now, reply, head)]
      ensures HeadMoves(old(head), trace[|trace| - 1])
    {
      var begin := now;
      reply := Answer();
      var took: bool := *;
      head := if reply == Valid || (reply == Threw && took) then hash else head;
      trace := trace + [Event(Forkchoice(hash), begin, now, reply, head)];
    }

    method Sleep(seconds: real)
      requires seconds >= 0.0
      modifies this`now
      ensures old(now) + seconds <= now
    {
      var late: real := *;
      now := now + seconds + if late >= 0.0 then late else 0.0;
    }
  }

  /** The latency file and the temporary file beside it, which is written row by row and then renamed. */
  class CsvFile {
    var versions: seq<seq<Row>>  // everything the latency file has held
    var temporary: seq<Row>
    ghost var views: seq<Option<seq<Row>>>  // what a reader, or a kill, would have found after each step

    ghost function Content(): Option<seq<Row>>
      reads this
    {
      if versions == [] then None else Some(versions[|versions| - 1])
    }

    method Truncate()
      modifies `temporary, `views
      ensures temporary == [] && views == old(views) + [Content()]
    {
      temporary := [];
      views := views + [Content()];
    }

    method WriteRow(row: Row)
      modifies `temporary, `views
      ensures temporary == old(temporary) + [row] && views == old(views) + [Content()]
    {
      temporary := temporary + [row];
      views := views + [Content()];
    }

    method Rename()
      modifies `versions, `views
      ensures versions == old(versions) + [temporary] && views == old(views) + [Content()]
    {
      versions := versions + [temporary];
      views := views + [Content()];
    }

    /** Write the rows to the temporary file, then rename it. Nobody ever finds a part of them. */
    method Replace(rows: seq<Row>)
      modifies this
      ensures versions == old(versions) + [rows]
      ensures old(views) <= views
      ensures forall k | |old(views)| <= k < |views| :: views[k] == old(Content()) || views[k] == Some(rows)
    {
      Truncate();
      for i := 0 to |rows|
        invariant temporary == rows[..i] && versions == old(versions) && old(views) <= views
        invariant forall k | |old(views)| <= k < |views| :: views[k] == old(Content())
      {
        WriteRow(rows[i]);
      }
      assert rows[..|rows|] == rows;
      Rename();
    }
  }

  /** The versions a run leaves behind: one after each row, each all the rows until then. */
  function Flushes(rows: seq<Row>): seq<seq<Row>> {
    if rows == [] then [] else Flushes(rows[..|rows| - 1]) + [rows]
  }

  lemma FlushesMore(rows: seq<Row>, row: Row)
    ensures Flushes(rows + [row]) == Flushes(rows) + [rows + [row]]
  {
    assert (rows + [row])[..|rows|] == rows;
  }

  /** A reader that finds the file at any moment of a run finds whole rows, from the first on. */
  lemma {:induction false} EveryVersionIsAPrefix(rows: seq<Row>, k: nat)
    requires k < |rows|
    ensures |Flushes(rows)| == |rows| && Flushes(rows)[k] == rows[..k + 1]
  {
    var before := rows[..|rows| - 1];
    if k < |before| {
      EveryVersionIsAPrefix(before, k);
    } else if before != [] {
      EveryVersionIsAPrefix(before, k - 1);
    }
  }

  /** How `run` ends: normally, because it was asked to stop, or with an exception. */
  datatype Outcome = Finished | Interrupted | Raised(failure: Failure)

  /** The stop event is first found set before record `stopAt`, if ever. */
  predicate StoppedBefore(stopAt: Option<nat>, i: nat) {
    stopAt.Some? && stopAt.value <= i
  }

  /** Record `i` is reached, wanted, and not stopped before. */
  predicate InPlay(recs: seq<PayloadRecord>, stopAt: Option<nat>, s: Settings, i: nat) {
    i < |recs| && Within(s, i) && !StoppedBefore(stopAt, i)
  }

  /** What each way of ending means for the records and the calls made. */
  predicate Explains(o: Outcome, recs: seq<PayloadRecord>, loadError: Option<Error>, stopAt: Option<nat>,
                     s: Settings, p: Phase) {
    match o
    case Finished => p.Ready? && !(p.i < |recs| && Within(s, p.i)) && (p.i >= |recs| ==> loadError.None?)
    case Interrupted => p.Ready? && p.i < |recs| && Within(s, p.i) && StoppedBefore(stopAt, p.i)
    case Raised(LoadError(e)) => p == Ready(|recs|) && loadError == Some(e)
    case Raised(ChainGap) => p.Ready? && InPlay(recs, stopAt, s, p.i) && !Chained(recs, p.i)
    case Raised(UnsupportedVersion) =>
      (p.Ready? || p.Based?) && InPlay(recs, stopAt, s, Index(p)) && Chained(recs, Index(p))
      && NewPayloadParams(s.forcedVersion, recs[Index(p)]).Err?
    case Raised(f) => p.Halted? && p.failure == f && InPlay(recs, stopAt, s, p.i)
  }

  /** What there was before a run: the client's head and calls, and the latency file. */
  datatype Origin = Origin(
    home: Option<string>,
    trace: seq<Event>,
    versions: seq<seq<Row>>,
    content: Option<seq<Row>>,
    views: nat)

  class ReplayDriver {
    const settings: Settings
    const client: ExecutionClient
    const csv: CsvFile

    // The lists `run` builds up.
    var rows: seq<Row>
    var payloadMs: seq<real>
    var fcuMs: seq<real>
    var syncMs: seq<real>

    // The run seen from outside: its records, its calls, and what there was before it.
    ghost var recs: seq<PayloadRecord>
    ghost var events: seq<Event>
    ghost var origin: Origin

    constructor (settings: Settings, client: ExecutionClient, csv: CsvFile)
      ensures this.settings == settings && this.client == client && this.csv == csv
    {
      this.settings, this.client, this.csv := settings, client, csv;
      rows, payloadMs, fcuMs, syncMs := [], [], [], [];
    }

    ghost function Now(): Origin
      reads this, client, csv
    {
      Origin(client.head, client.trace, csv.versions, csv.Content(), |csv.views|)
    }

    ghost function Current(p: Phase): Protocol.Run
      reads this
    {
      Protocol.Run.Run(p, rows, payloadMs, fcuMs, syncMs)
    }

    /** The calls made so far, seen from the client's side. */
    ghost predicate Observed()
      reads `events, `origin, client
    {
      Honest(events, origin.home) && client.head == HeadAfter(events, origin.home)
      && (events != [] ==> events[|events| - 1].end <= client.now)
      && client.trace == origin.trace + events
    }

    /** Those calls are ones the protocol allows, and its machine is where this driver is. */
    ghost predicate Tracks(p: Phase)
      reads this, client
    {
      After(recs, settings, events) == Current(p) && Observed()
    }

    /** The latency file holds the rows so far, and held each shorter version of them before. */
    ghost predicate Saved()
      reads `rows, `origin, csv
    {
      csv.versions == origin.versions + Flushed() && Watched()
    }

    /** Whoever looked at the file during this run, after whatever step, found whole rows of it. */
    ghost predicate Watched()
      reads `rows, `origin, csv
    {
      origin.views <= |csv.views| && Whole(csv.Content())
      && forall k | origin.views <= k < |csv.views| :: Whole(csv.views[k])
    }

    /** What the file held before this run, or the rows up to some row of it. */
    ghost predicate Whole(view: Option<seq<Row>>)
      reads `rows, `origin
    {
      view == origin.content || (view.Some? && view.value <= rows)
    }

    ghost function Flushed(): seq<seq<Row>>
      reads `rows
    {
      if settings.writeCsv then Flushes(rows) else []
    }

    method MaybeWriteCsv()
      requires Watched()
      modifies csv
      ensures Watched()
      ensures csv.versions == old(csv.versions) + if settings.writeCsv then [rows] else []
    {
      if settings.writeCsv {
        csv.Replace(rows);
      }
    }

    method AddRow(row: Row)
      requires Saved()
      modifies this`rows, csv
      ensures rows == old(rows) + [row]
      ensures Saved()
    {
      FlushesMore(rows, row);
      rows := rows + [row];
      MaybeWriteCsv();
    }

    /** The call just made becomes part of the run. */
    ghost method Note(e: Event)
      requires client.trace == origin.trace + events + [e] && e.head == client.head && e.end <= client.now
      requires Honest(events, origin.home) && HeadMoves(HeadAfter(events, origin.home), e) && e.begin <= e.end
      requires events != [] ==> events[|events| - 1].end <= e.begin
      modifies this`events
      ensures Observed()
      ensures After(recs, settings, events) == Step(recs, settings, old(After(recs, settings, events)), e)
    {
      hide Step, HeadMoves;
      AfterOneMore(recs, settings, events, e);
      HonestOneMore(events, e, origin.home);
      events := events + [e];
    }

    /** A newPayload call, seen from both sides. */
    method NewPayloadCall(params: Params) returns (reply: Reply, ghost e: Event)
      requires Observed()
      modifies `events, client
      ensures Observed() && e.call == NewPayload(params) && e.reply == reply
      ensures e.begin == old(client.now) <= client.now == e.end
      ensures After(recs, settings, events) == Step(recs, settings, old(After(recs, settings, events)), e)
    {
      hide Step, After, Honest;
      reply := client.CallNewPayload(params);
      e := client.trace[|client.trace| - 1];
      Note(e);
    }

    /** A forkchoice call, seen from both sides. */
    method ForkchoiceCall(hash: Option<string>) returns (reply: Reply, ghost e: Event)
      requires Observed()
      modifies `events, client
      ensures Observed() && e.call == Forkchoice(hash) && e.reply == reply
      ensures e.begin == old(client.now) <= client.now == e.end
      ensures After(recs, settings, events) == Step(recs, settings, old(After(recs, settings, events)), e)
    {
      hide Step, After, Honest;
      reply := client.CallForkchoice(hash);
      e := client.trace[|client.trace| - 1];
      Note(e);
    }

    /** The first record's parent must already be known to the client. */
    method CheckBase(i: nat, record: PayloadRecord) returns (failure: Option<Failure>)
      requires Tracks(Ready(i)) && i < |recs| && record == recs[i] && Within(settings, i)
      requires settings.advanceHead && IsFirst(recs, i)
      modifies `events, client
      ensures Tracks(if failure.None? then Based(i) else Halted(i, failure.value, false))
      ensures failure.Some? ==> failure.value in {EngineError, BaseMismatch}
    {
      hide Observed, After;
      var reply, _ := ForkchoiceCall(Parent(record));
      if reply == Threw {
        return Some(EngineError);
      }
      if reply != Valid {
        return Some(BaseMismatch);
      }
      return None;
    }

    method Fail(record: PayloadRecord, ghost payload: Event, ms: real, status: RowStatus)
      requires Saved() && ms == Ms(payload.begin, payload.end)
      modifies this`rows, csv
      ensures rows == old(rows) + [FailureRow(record, payload, status)]
      ensures Saved()
    {
      AddRow(Row(record.blockNumber, ms, None, None, status));
    }

    /** One poll of record `i`: its block lands, or fails, or is to be polled again. */
    method PollOnce(i: nat, record: PayloadRecord, ghost payload: Event, ghost last: Option<real>, waitStart: real,
                    ms: real, status: Reply) returns (r: Poll)
      requires Tracks(Polling(i, payload, last)) && i < |recs| && record == recs[i]
      requires PollDue(payload, last, client.now) && waitStart == payload.end
      requires ms == Ms(payload.begin, payload.end) && status == payload.reply
      requires Saved()
      modifies `rows, `fcuMs, `syncMs, `events, client, csv
      ensures Saved()
      ensures old(client.now) <= client.now
      ensures match r
              case HasLanded => Tracks(Ready(i + 1))
              case HasFailed(f) => Tracks(Halted(i, f, true)) && f in {EngineError, ForkchoiceRejected, ForkchoiceStuck}
              case Again =>
                Tracks(Polling(i, payload, Some(client.now))) && client.now <= waitStart + settings.waitSeconds
    {
      hide Observed, PollDue, Saved, After, Sent, Chained, Within, NewPayloadParams, TextAt;
      var t1 := client.now;
      var reply, _ := ForkchoiceCall(record.blockHash);
      var fcuMsVal := Ms(t1, client.now);
      match reply
      case Threw => return HasFailed(EngineError);
      case Valid =>
        var wait := if status == Syncing then Some(Ms(waitStart, client.now)) else None;
        fcuMs := fcuMs + [fcuMsVal];
        syncMs := if wait.Some? then syncMs + [wait.value] else syncMs;
        var rowStatus := if status == Syncing then SyncingLanded else Landed(status);
        AddRow(Row(record.blockNumber, ms, Some(fcuMsVal), wait, rowStatus));
        return HasLanded;
      case Invalid =>
        Fail(record, payload, ms, ForkchoiceInvalid);
        return HasFailed(ForkchoiceRejected);
      case _ =>
        if client.now > waitStart + settings.waitSeconds {
          Fail(record, payload, ms, ForkchoiceTimeout(reply));
          return HasFailed(ForkchoiceStuck);
        }
        return Again;
    }

    /** Poll the forkchoice of record `i` until its block lands, fails, or the wait is over. */
    method AwaitHead(i: nat, record: PayloadRecord, ghost payload: Event, ms: real, status: Reply)
        returns (failure: Option<Failure>)
      requires Tracks(Polling(i, payload, None)) && i < |recs| && record == recs[i]
      requires client.now == payload.end && ms == Ms(payload.begin, payload.end) && status == payload.reply
      requires Saved()
      modifies `rows, `fcuMs, `syncMs, `events, client, csv
      ensures Saved()
      ensures Tracks(if failure.None? then Ready(i + 1) else Halted(i, failure.value, true))
      ensures failure.Some? ==> failure.value in {EngineError, ForkchoiceRejected, ForkchoiceStuck}
    {
      hide Honest, HeadMoves, Saved, After, Step;
      var waitStart := client.now;
      ghost var last: Option<real> := None;
      while true
        invariant Saved() && Tracks(Polling(i, payload, last)) && PollDue(payload, last, client.now)
        invariant last.Some? ==> last.value <= waitStart + settings.waitSeconds
        decreases last.None?, waitStart + settings.waitSeconds - (if last.None? then 0.0 else last.value)
      {
        var poll := PollOnce(i, record, payload, last, waitStart, ms, status);
        if poll.HasLanded? {
          return None;
        }
        if poll.HasFailed? {
          return Some(poll.failure);
        }
        last := Some(client.now);
        client.Sleep(2.0);
      }
    }

    /** Send the payload of record `i`. With the head not advancing, an accepted one is all there is to it. */
    method SendPayload(i: nat, record: PayloadRecord, params: Params)
        returns (failure: Option<Failure>, reply: Reply, ms: real, ghost payload: Event)
      requires i < |recs| && record == recs[i] && Within(settings, i) && Chained(recs, i)
      requires NewPayloadParams(settings.forcedVersion, record) == Ok(params)
      requires Tracks(if settings.advanceHead && IsFirst(recs, i) then Based(i) else Ready(i))
      requires Saved()
      modifies `rows, `payloadMs, `events, client, csv
      ensures Saved()
      ensures failure.Some? ==>
                Tracks(Halted(i, failure.value, true)) && failure.value in {EngineError, PayloadRejected}
      ensures failure.None? && !settings.advanceHead ==> Tracks(Ready(i + 1))
      ensures failure.None? && settings.advanceHead ==>
                Tracks(Polling(i, payload, None)) && client.now == payload.end
                && ms == Ms(payload.begin, payload.end) && reply == payload.reply
    {
      hide Observed, Saved, After, NewPayloadParams, Step, Polled, Chained, IsFirst, Within;
      var t0 := client.now;
      ghost var before := After(recs, settings, events);
      reply, payload := NewPayloadCall(params);
      StepIsSent(recs, settings, before, i, payload);
      ms := Ms(t0, client.now);
      if reply == Threw {
        return Some(EngineError), reply, ms, payload;
      }
      payloadMs := payloadMs + [ms];
      if reply != Valid && reply != Accepted && reply != Syncing {
        Fail(record, payload, ms, Rejected(reply));
        return Some(PayloadRejected), reply, ms, payload;
      }
      if !settings.advanceHead {
        AddRow(Row(record.blockNumber, ms, None, None, Landed(reply)));
      }
      failure := None;
    }

    /** The run fails at record `i`, for a reason its phase explains. */
    ghost predicate FailsAt(f: Failure, i: nat, p: Phase)
      reads `recs
    {
      !f.LoadError? && Index(p) == i && Explains(Raised(f), recs, None, None, settings, p)
    }

    /** Everything after the chain check of record `i`: its payload, its polls, its row. */
    method ReplayRecord(i: nat, record: PayloadRecord) returns (failure: Option<Failure>, ghost phase: Phase)
      requires i < |recs| && record == recs[i] && Within(settings, i) && Chained(recs, i)
      requires Tracks(if settings.advanceHead && IsFirst(recs, i) then Based(i) else Ready(i))
      requires Saved()
      modifies `rows, `payloadMs, `fcuMs, `syncMs, `events, client, csv
      ensures Saved()
      ensures Tracks(phase)
      ensures if failure.None? then phase == Ready(i + 1)
              else FailsAt(failure.value, i, phase)
    {
      hide Honest, HeadMoves, Saved, After, NewPayloadParams, Chained, IsFirst;
      var params := NewPayloadParams(settings.forcedVersion, record);
      if params.Err? {
        return Some(UnsupportedVersion), if settings.advanceHead && IsFirst(recs, i) then Based(i) else Ready(i);
      }
      var reply, ms;
      ghost var payload;
      failure, reply, ms, payload := SendPayload(i, record, params.value);
      if failure.None? && settings.advanceHead {
        failure := AwaitHead(i, record, payload, ms, reply);
      }
      phase := if failure.None? then Ready(i + 1) else Halted(i, failure.value, true);
    }

    /** The chain check of record `i`, against the block hash of the record before it. */
    method CheckChain(i: nat, record: PayloadRecord, prevHash: Option<string>)
        returns (failure: Option<Failure>, ghost phase: Phase)
      requires Tracks(Ready(i)) && i < |recs| && record == recs[i] && Within(settings, i)
      requires prevHash == if i == 0 then None else recs[i - 1].blockHash
      modifies `events, client
      ensures Tracks(phase)
      ensures if failure.None? then
                Chained(recs, i) && phase == if settings.advanceHead && IsFirst(recs, i) then Based(i) else Ready(i)
              else FailsAt(failure.value, i, phase)
    {
      hide Honest, HeadMoves, Saved, After, TextAt;
      if prevHash.None? {
        if settings.advanceHead {
          failure := CheckBase(i, record);
          phase := if failure.None? then Based(i) else Halted(i, failure.value, false);
        } else {
          failure, phase := None, Ready(i);
        }
      } else {
        failure := if Parent(record) != prevHash then Some(ChainGap) else None;
        phase := Ready(i);
      }
    }

    /** Record `i` from its chain check to its row. */
    method ReplayNext(i: nat, record: PayloadRecord, prevHash: Option<string>)
        returns (failure: Option<Failure>, ghost phase: Phase)
      requires Saved() && Tracks(Ready(i)) && i < |recs| && record == recs[i] && Within(settings, i)
      requires prevHash == if i == 0 then None else recs[i - 1].blockHash
      modifies `rows, `payloadMs, `fcuMs, `syncMs, `events, client, csv
      ensures Saved() && Tracks(phase)
      ensures if failure.None? then phase == Ready(i + 1)
              else FailsAt(failure.value, i, phase)
    {
      hide Observed, Flushes, Watched, After, Step, Chained, IsFirst, NewPayloadParams, TextAt;
      failure, phase := CheckChain(i, record, prevHash);
      if failure.None? {
        failure, phase := ReplayRecord(i, record);
      }
    }

    /** One replay of `records`, whose iteration ends with `loadError` if that is an error. */
    method Run(records: seq<PayloadRecord>, loadError: Option<Error>, stopAt: Option<nat>)
        returns (outcome: Outcome, ghost phase: Phase)
      modifies this, client, csv
      ensures recs == records && origin == old(Now())
      ensures Tracks(phase) && Explains(outcome, records, loadError, stopAt, settings, phase)
      ensures Watched()
      ensures csv.versions == origin.versions + Flushed() +
                if settings.writeCsv && !outcome.Raised? then [rows] else []
    {
      hide Observed, Flushes, Watched, After, Step, Chained, IsFirst, NewPayloadParams, TextAt;
      Start(records);
      var prevHash: Option<string> := None;
      var i := 0;
      outcome := Finished;
      while i < |records| && Within(settings, i)
        invariant i <= |records| && recs == records && Tracks(Ready(i)) && Saved()
        invariant origin == old(Now())
        invariant prevHash == if i == 0 then None else records[i - 1].blockHash
      {
        var record := records[i];
        if stopAt.Some? && i >= stopAt.value {
          outcome := Interrupted;
          break;
        }
        var failure;
        failure, phase := ReplayNext(i, record, prevHash);
        if failure.Some? {
          return Raised(failure.value), phase;
        }
        prevHash := record.blockHash;
        i := i + 1;
      }
      phase := Ready(i);
      if i == |records| && loadError.Some? {
        return Raised(LoadError(loadError.value)), phase;
      }
      MaybeWriteCsv();
    }

    method Start(records: seq<PayloadRecord>)
      modifies this
      ensures recs == records && origin == old(Now()) && Tracks(Ready(0)) && Saved()
    {
      rows, payloadMs, fcuMs, syncMs := [], [], [], [];
      recs, events, origin := records, [], Now();
    }
  }

  datatype Poll = HasLanded | HasFailed(failure: Failure) | Again
}
