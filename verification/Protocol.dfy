/**
 The protocol between the replay driver and an execution client, as a machine over the
 calls the driver makes and the replies it gets. The machine says which call may come
 next and what is recorded after it; every run of the driver follows it.
 */
module Protocol {
  import opened Engine
  import opened Payload
  import opened Records
  import opened Wrappers

  /** The `status` of an Engine API answer; Threw stands for a call that threw instead. */
  datatype Reply = Valid | Accepted | Syncing | Invalid | Other(name: string) | NoStatus | Threw

  datatype Call = NewPayload(params: Params) | Forkchoice(head: Option<string>)

  /** One call: when it began and ended, its reply, and the client's head block afterwards. */
  datatype Event = Event(call: Call, begin: real, end: real, reply: Reply, head: Option<string>)

  datatype Settings = Settings(
    advanceHead: bool,
    count: Option<int>,
    forcedVersion: Option<int>,
    waitSeconds: real,
    writeCsv: bool)

  datatype RowStatus =
    | Landed(reply: Reply) | SyncingLanded | Rejected(reply: Reply)
    | ForkchoiceInvalid | ForkchoiceTimeout(reply: Reply)

  datatype Row = Row(
    blockNumber: int,
    newPayloadMs: real,
    fcuMs: Option<real>,
    syncWaitMs: Option<real>,
    status: RowStatus)

  predicate IsFailure(r: Row) {
    !r.status.Landed? && !r.status.SyncingLanded?
  }

  // ---------- the records ----------

  function Parent(r: PayloadRecord): Option<string> {
    TextAt(r.payload, ParentHash)
  }

  /** Whether record `i` is taken for a first record: none before it, or none with a block hash. */
  predicate IsFirst(recs: seq<PayloadRecord>, i: nat)
    requires i < |recs|
  {
    i == 0 || recs[i - 1].blockHash.None?
  }

  predicate Chained(recs: seq<PayloadRecord>, i: nat)
    requires i < |recs|
  {
    IsFirst(recs, i) || Parent(recs[i]) == recs[i - 1].blockHash
  }

  predicate Within(s: Settings, i: nat) {
    s.count.None? || i < s.count.value
  }

  // ---------- the machine ----------

  datatype Failure =
    | LoadError(error: Error) | ChainGap | UnsupportedVersion
    | EngineError | BaseMismatch | PayloadRejected | ForkchoiceRejected | ForkchoiceStuck

  datatype Phase =
    | Ready(i: nat)                                           // i records are finished
    | Based(i: nat)                                           // record i's parent is the head, its payload is due
    | Polling(i: nat, payload: Event, last: Option<real>)     // record i's payload is in, its forkchoice is polled
    | Halted(i: nat, failure: Failure, sent: bool)            // record i failed, its payload sent or not: the end
    | Violation                                               // a call the protocol does not allow

  /** A run so far: its phase, its rows, and its three lists of latencies. */
  datatype Run = Run(phase: Phase, rows: seq<Row>, payloadMs: seq<real>, fcuMs: seq<real>, syncMs: seq<real>)

  const START: Run := Run(Ready(0), [], [], [], [])

  function Ms(from: real, to: real): real {
    (to - from) * 1000.0
  }

  function FailureRow(r: PayloadRecord, payload: Event, status: RowStatus): Row {
    Row(r.blockNumber, Ms(payload.begin, payload.end), None, None, status)
  }

  /** Record `i` gets its newPayload, at most once, with its own parameters. */
  function Sent(recs: seq<PayloadRecord>, s: Settings, r: Run, i: nat, e: Event): Run
    requires i < |recs|
  {
    var params := NewPayloadParams(s.forcedVersion, recs[i]);
    if params.Err? || e.call != NewPayload(params.value) then r.(phase := Violation) else
    var timed := r.(payloadMs := r.payloadMs + [Ms(e.begin, e.end)]);
    match e.reply
    case Threw => r.(phase := Halted(i, EngineError, true))
    case Valid | Accepted | Syncing =>
      if s.advanceHead then timed.(phase := Polling(i, e, None))
      else timed.(phase := Ready(i + 1), rows := r.rows + [FailureRow(recs[i], e, Landed(e.reply))])
    case _ =>
      timed.(phase := Halted(i, PayloadRejected, true), rows := r.rows + [FailureRow(recs[i], e, Rejected(e.reply))])
  }

  /** A poll: at once after the payload, then at least two seconds after the poll before it. */
  predicate PollDue(payload: Event, last: Option<real>, begin: real) {
    match last
    case None => begin == payload.end
    case Some(t) => t + 2.0 <= begin
  }

  function LandedRow(r: PayloadRecord, payload: Event, poll: Event): Row {
    Row(r.blockNumber, Ms(payload.begin, payload.end), Some(Ms(poll.begin, poll.end)),
        if payload.reply == Syncing then Some(Ms(payload.end, poll.end)) else None,
        if payload.reply == Syncing then SyncingLanded else Landed(payload.reply))
  }

  function Polled(recs: seq<PayloadRecord>, s: Settings, r: Run, e: Event): Run
    requires r.phase.Polling? && r.phase.i < |recs|
  {
    var Polling(i, payload, last) := r.phase;
    if e.call != Forkchoice(recs[i].blockHash) || !PollDue(payload, last, e.begin) then r.(phase := Violation) else
    match e.reply
    case Threw => r.(phase := Halted(i, EngineError, true))
    case Valid =>
      Run(Ready(i + 1), r.rows + [LandedRow(recs[i], payload, e)], r.payloadMs,
          r.fcuMs + [Ms(e.begin, e.end)],
          if payload.reply == Syncing then r.syncMs + [Ms(payload.end, e.end)] else r.syncMs)
    case Invalid =>
      r.(phase := Halted(i, ForkchoiceRejected, true),
         rows := r.rows + [FailureRow(recs[i], payload, ForkchoiceInvalid)])
    case _ =>
      if e.end > payload.end + s.waitSeconds
      then r.(phase := Halted(i, ForkchoiceStuck, true),
              rows := r.rows + [FailureRow(recs[i], payload, ForkchoiceTimeout(e.reply))])
      else r.(phase := Polling(i, payload, Some(e.end)))
  }

  function Step(recs: seq<PayloadRecord>, s: Settings, r: Run, e: Event): Run {
    match r.phase
    case Ready(i) =>
      if |recs| <= i || !Within(s, i) || !Chained(recs, i) then r.(phase := Violation)
      else if s.advanceHead && IsFirst(recs, i) then
        if e.call != Forkchoice(Parent(recs[i])) then r.(phase := Violation)
        else if e.reply == Valid then r.(phase := Based(i))
        else r.(phase := Halted(i, if e.reply == Threw then EngineError else BaseMismatch, false))
      else Sent(recs, s, r, i, e)
    case Based(i) => if i < |recs| then Sent(recs, s, r, i, e) else r.(phase := Violation)
    case Polling(i, _, _) => if i < |recs| then Polled(recs, s, r, e) else r.(phase := Violation)
    case _ => r.(phase := Violation)
  }

  /** A payload is due once record `i` is chained and, if it is a first record, its base is in place. */
  lemma StepIsSent(recs: seq<PayloadRecord>, s: Settings, r: Run, i: nat, e: Event)
    requires i < |recs| && Within(s, i) && Chained(recs, i)
    requires r.phase == if s.advanceHead && IsFirst(recs, i) then Based(i) else Ready(i)
    ensures Step(recs, s, r, e) == Sent(recs, s, r, i, e)
  {
    hide Sent, Chained;
  }

  /** The machine after a sequence of events. */
  function After(recs: seq<PayloadRecord>, s: Settings, events: seq<Event>): Run {
    if events == [] then START
    else Step(recs, s, After(recs, s, events[..|events| - 1]), events[|events| - 1])
  }

  lemma AfterOneMore(recs: seq<PayloadRecord>, s: Settings, events: seq<Event>, e: Event)
    ensures After(recs, s, events + [e]) == Step(recs, s, After(recs, s, events), e)
  {
    assert (events + [e])[..|events|] == events;
  }

  // ---------- the execution client ----------

  /** What a call does to the client's head: only a forkchoice moves it, and a VALID one always does. */
  predicate HeadMoves(before: Option<string>, e: Event) {
    if e.call.NewPayload? then e.head == before
    else match e.reply
      case Valid => e.head == e.call.head
      case Threw => e.head == before || e.head == e.call.head
      case _ => e.head == before
  }

  function HeadAfter(events: seq<Event>, head: Option<string>): Option<string> {
    if events == [] then head else events[|events| - 1].head
  }

  /** Events of a client whose head was `head` before them, in time order. */
  predicate Honest(events: seq<Event>, head: Option<string>) {
    events == [] ||
    var before, e := events[..|events| - 1], events[|events| - 1];
    Honest(before, head) && HeadMoves(HeadAfter(before, head), e) && e.begin <= e.end
    && (before != [] ==> before[|before| - 1].end <= e.begin)
  }

  // ---------- what every run keeps: the chain, and one payload a record ----------

  /** The record a phase is at. */
  function Index(p: Phase): nat {
    match p
    case Ready(i) => i
    case Based(i) => i
    case Polling(i, _, _) => i
    case Halted(i, _, _) => i
    case Violation => 0
  }

  /** How many payloads have been sent by a phase. */
  function SentBy(p: Phase): nat {
    Index(p) + if p.Polling? || (p.Halted? && p.sent) then 1 else 0
  }

  /** The newPayload calls among `events`, in order. */
  function Payloads(events: seq<Event>): seq<Params> {
    if events == [] then [] else
    var e := events[|events| - 1];
    Payloads(events[..|events| - 1]) + (if e.call.NewPayload? then [e.call.params] else [])
  }

  /** The first `n` records are chained, and `sent` are their payloads, each once and in order. */
  predicate SentInOrder(recs: seq<PayloadRecord>, s: Settings, sent: seq<Params>, n: nat) {
    n <= |recs| && |sent| == n
    && forall k | 0 <= k < n ::
         Chained(recs, k) && Within(s, k) && NewPayloadParams(s.forcedVersion, recs[k]) == Ok(sent[k])
  }

  lemma SentOneMore(recs: seq<PayloadRecord>, s: Settings, sent: seq<Params>, params: Params)
    requires SentInOrder(recs, s, sent, |sent|) && |sent| < |recs| && Chained(recs, |sent|) && Within(s, |sent|)
    requires NewPayloadParams(s.forcedVersion, recs[|sent|]) == Ok(params)
    ensures SentInOrder(recs, s, sent + [params], |sent| + 1)
  {
    hide NewPayloadParams, Chained;
  }

  predicate InRange(recs: seq<PayloadRecord>, s: Settings, p: Phase) {
    match p
    case Ready(i) => i <= |recs|
    case _ => Index(p) < |recs| && Chained(recs, Index(p)) && Within(s, Index(p))
  }

  /** One allowed step sends the payload that is due, or none. */
  lemma StepSends(recs: seq<PayloadRecord>, s: Settings, r: Run, e: Event)
    requires InRange(recs, s, r.phase) && Step(recs, s, r, e).phase != Violation
    ensures var p := Step(recs, s, r, e).phase;
            InRange(recs, s, p)
            && SentBy(p) == SentBy(r.phase) + (if e.call.NewPayload? then 1 else 0)
            && (e.call.NewPayload? ==>
                  SentBy(r.phase) < |recs| && Chained(recs, SentBy(r.phase)) && Within(s, SentBy(r.phase))
                  && NewPayloadParams(s.forcedVersion, recs[SentBy(r.phase)]) == Ok(e.call.params))
  {
    hide NewPayloadParams, Chained, PollDue, Within;
  }

  /** In every run without a violation, exactly the payloads of the records so far were sent, in order. */
  lemma {:induction false} PayloadsInOrder(recs: seq<PayloadRecord>, s: Settings, events: seq<Event>)
    requires After(recs, s, events).phase != Violation
    ensures var p := After(recs, s, events).phase;
            InRange(recs, s, p) && SentInOrder(recs, s, Payloads(events), SentBy(p))
  {
    hide Step, NewPayloadParams, Chained, Within;
    if events != [] {
      var before, e := events[..|events| - 1], events[|events| - 1];
      ViolationStays(recs, s, before, e);
      PayloadsInOrder(recs, s, before);
      StepSends(recs, s, After(recs, s, before), e);
      if e.call.NewPayload? {
        SentOneMore(recs, s, Payloads(before), e.call.params);
      }
    }
  }

  lemma ViolationStays(recs: seq<PayloadRecord>, s: Settings, events: seq<Event>, e: Event)
    ensures After(recs, s, events).phase == Violation ==> Step(recs, s, After(recs, s, events), e).phase == Violation
  {
    hide After;
  }

  /** A run without a violation had none before. */
  lemma {:induction false} PrefixClean(recs: seq<PayloadRecord>, s: Settings, events: seq<Event>, k: nat)
    requires After(recs, s, events).phase != Violation && k <= |events|
    ensures After(recs, s, events[..k]).phase != Violation
  {
    hide NewPayloadParams, Chained, PollDue;
    if k < |events| {
      var before := events[..|events| - 1];
      PrefixClean(recs, s, before, k);
      assert before[..k] == events[..k];
    } else {
      assert events[..k] == events;
    }
  }

  // ---------- what every run keeps: the client's head ----------

  /** With the head advancing: where the client's head is in each phase, given that it was `head` at the start. */
  predicate HeadTracks(recs: seq<PayloadRecord>, p: Phase, head: Option<string>, now: Option<string>) {
    match p
    case Ready(i) => i <= |recs| && now == if i == 0 then head else recs[i - 1].blockHash
    case Based(i) => i < |recs| && now == Parent(recs[i])
    case Polling(i, _, _) => i < |recs| && now == Parent(recs[i])
    case Halted(i, _, sent) => i < |recs| && (sent ==> now in {Parent(recs[i]), recs[i].blockHash})
    case Violation => true
  }

  lemma StepTracksHead(recs: seq<PayloadRecord>, s: Settings, r: Run, e: Event,
                       head: Option<string>, before: Option<string>)
    requires s.advanceHead && HeadTracks(recs, r.phase, head, before) && HeadMoves(before, e)
    ensures HeadTracks(recs, Step(recs, s, r, e).phase, head, e.head)
    ensures e.call.NewPayload? && Step(recs, s, r, e).phase != Violation ==>
              SentBy(r.phase) < |recs| && before == Parent(recs[SentBy(r.phase)])
    ensures e.head != before && Step(recs, s, r, e).phase != Violation ==>
              var i := Index(r.phase);
              i < |recs| && e.call == Forkchoice(e.head)
              && ((r.phase == Ready(i) && IsFirst(recs, i) && e.head == Parent(recs[i]))
                  || (r.phase.Polling? && before == Parent(recs[i]) && e.head == recs[i].blockHash))
  {
    hide NewPayloadParams, PollDue, Within, TextAt;
  }

  /** In every run of an honest client the head is exactly where the replay believes it to be. */
  lemma {:induction false} HeadIsTracked(
    recs: seq<PayloadRecord>, s: Settings, events: seq<Event>, head: Option<string>)
    requires s.advanceHead && Honest(events, head)
    ensures HeadTracks(recs, After(recs, s, events).phase, head, HeadAfter(events, head))
  {
    hide Step, HeadMoves;
    if events != [] {
      var before, e := events[..|events| - 1], events[|events| - 1];
      HeadIsTracked(recs, s, before, head);
      StepTracksHead(recs, s, After(recs, s, before), e, head, HeadAfter(before, head));
    }
  }

  /**
   No payload is sent before the previous one landed: whenever one is sent, the client's
   head is its parent block, and it is the payload of the next record in the file.
   */
  lemma PayloadSentOnItsParent(recs: seq<PayloadRecord>, s: Settings, events: seq<Event>, k: nat, head: Option<string>)
    requires s.advanceHead && Honest(events, head) && After(recs, s, events).phase != Violation
    requires k < |events| && events[k].call.NewPayload?
    ensures var i := |Payloads(events[..k])|;
            i < |recs| && NewPayloadParams(s.forcedVersion, recs[i]) == Ok(events[k].call.params)
            && HeadAfter(events[..k], head) == Parent(recs[i])
  {
    hide Step, HeadMoves, NewPayloadParams;
    var before, e := events[..k], events[k];
    PrefixClean(recs, s, events, k);
    PrefixClean(recs, s, events, k + 1);
    HonestPrefix(events, k + 1, head);
    assert events[..k + 1] == before + [e];
    AfterOneMore(recs, s, before, e);
    HonestOneMore(before, e, head);
    PayloadsInOrder(recs, s, before);
    HeadIsTracked(recs, s, before, head);
    StepSends(recs, s, After(recs, s, before), e);
    StepTracksHead(recs, s, After(recs, s, before), e, head, HeadAfter(before, head));
  }

  /**
   The head moves one record at a time: from a record's parent to that record, by a
   forkchoice to it, or by the base forkchoice onto the parent of a first record.
   */
  lemma HeadMovesOneRecord(recs: seq<PayloadRecord>, s: Settings, events: seq<Event>, k: nat, head: Option<string>)
    requires s.advanceHead && Honest(events, head) && After(recs, s, events).phase != Violation
    requires k < |events| && events[k].head != HeadAfter(events[..k], head)
    ensures var i := Index(After(recs, s, events[..k]).phase);
            i < |recs| && events[k].call == Forkchoice(events[k].head)
            && ((IsFirst(recs, i) && events[k].head == Parent(recs[i]))
                || (HeadAfter(events[..k], head) == Parent(recs[i]) && events[k].head == recs[i].blockHash))
  {
    hide Step, HeadMoves, HeadTracks, TextAt, Honest, After;
    var before, e := events[..k], events[k];
    PrefixClean(recs, s, events, k + 1);
    HonestPrefix(events, k + 1, head);
    assert events[..k + 1] == before + [e];
    AfterOneMore(recs, s, before, e);
    HonestOneMore(before, e, head);
    HeadIsTracked(recs, s, before, head);
    StepTracksHead(recs, s, After(recs, s, before), e, head, HeadAfter(before, head));
  }

  lemma {:induction false} HonestPrefix(events: seq<Event>, k: nat, head: Option<string>)
    requires Honest(events, head) && k <= |events|
    ensures Honest(events[..k], head)
  {
    if k < |events| {
      HonestPrefix(events[..|events| - 1], k, head);
      assert events[..|events| - 1][..k] == events[..k];
    } else {
      assert events[..k] == events;
    }
  }

  lemma HonestOneMore(before: seq<Event>, e: Event, head: Option<string>)
    ensures Honest(before + [e], head) <==>
            Honest(before, head) && HeadMoves(HeadAfter(before, head), e) && e.begin <= e.end
            && (before != [] ==> before[|before| - 1].end <= e.begin)
  {
    assert (before + [e])[..|before|] == before;
  }

  /** With the head not advancing, no forkchoice call is made and the client's head never moves. */
  lemma {:induction false} HeadIsLeftAlone(
    recs: seq<PayloadRecord>, s: Settings, events: seq<Event>, head: Option<string>)
    requires !s.advanceHead && Honest(events, head) && After(recs, s, events).phase != Violation
    ensures !After(recs, s, events).phase.Polling? && !After(recs, s, events).phase.Based?
    ensures HeadAfter(events, head) == head && |Payloads(events)| == |events|
  {
    hide NewPayloadParams, Chained, Within, PollDue;
    if events != [] {
      HeadIsLeftAlone(recs, s, events[..|events| - 1], head);
    }
  }

  // ---------- what every run keeps: the rows and the latencies ----------

  function PayloadTimes(rows: seq<Row>): seq<real> {
    if rows == [] then [] else PayloadTimes(rows[..|rows| - 1]) + [rows[|rows| - 1].newPayloadMs]
  }

  function FcuTimes(rows: seq<Row>): seq<real> {
    if rows == [] then [] else
    var r := rows[|rows| - 1];
    var times := FcuTimes(rows[..|rows| - 1]);
    if r.fcuMs.Some? then times + [r.fcuMs.value] else times
  }

  function SyncTimes(rows: seq<Row>): seq<real> {
    if rows == [] then [] else
    var r := rows[|rows| - 1];
    var times := SyncTimes(rows[..|rows| - 1]);
    if r.syncWaitMs.Some? then times + [r.syncWaitMs.value] else times
  }

  /** A row for record `r`: what may stand in its columns, given whether the head advances. */
  predicate GoodRow(s: Settings, r: PayloadRecord, row: Row) {
    row.blockNumber == r.blockNumber
    && (row.fcuMs.Some? <==> s.advanceHead && !IsFailure(row))
    && (row.syncWaitMs.Some? <==> row.status == SyncingLanded)
  }

  /** Rows in record order, the first `finished` of them of finished records and at most one failure after them. */
  predicate GoodRows(recs: seq<PayloadRecord>, s: Settings, rows: seq<Row>, finished: nat) {
    finished <= |rows| <= finished + 1 && |rows| <= |recs|
    && forall k | 0 <= k < |rows| :: GoodRow(s, recs[k], rows[k]) && (IsFailure(rows[k]) <==> k == finished)
  }

  /** The failures that leave a row behind. */
  predicate AddsRow(f: Failure) {
    f.PayloadRejected? || f.ForkchoiceRejected? || f.ForkchoiceStuck?
  }

  predicate Books(recs: seq<PayloadRecord>, s: Settings, r: Run) {
    GoodRows(recs, s, r.rows, Index(r.phase))
    && |r.rows| == Index(r.phase) + (if r.phase.Halted? && AddsRow(r.phase.failure) then 1 else 0)
    && r.fcuMs == FcuTimes(r.rows) && r.syncMs == SyncTimes(r.rows)
    && (r.payloadMs == PayloadTimes(r.rows) || OneInFlight(r))
    && (r.phase.Polling? ==>
          s.advanceHead && r.payloadMs == PayloadTimes(r.rows) + [Ms(r.phase.payload.begin, r.phase.payload.end)])
  }

  /** A payload was timed that has no row: its forkchoice is being polled, or a poll threw. */
  predicate OneInFlight(r: Run) {
    (r.phase.Polling? || (r.phase.Halted? && r.phase.failure.EngineError?))
    && r.payloadMs != [] && r.payloadMs[..|r.payloadMs| - 1] == PayloadTimes(r.rows)
  }

  lemma RowsOneMore(rows: seq<Row>, row: Row)
    ensures PayloadTimes(rows + [row]) == PayloadTimes(rows) + [row.newPayloadMs]
    ensures FcuTimes(rows + [row]) == if row.fcuMs.Some? then FcuTimes(rows) + [row.fcuMs.value] else FcuTimes(rows)
    ensures SyncTimes(rows + [row])
         == if row.syncWaitMs.Some? then SyncTimes(rows) + [row.syncWaitMs.value] else SyncTimes(rows)
  {
    assert (rows + [row])[..|rows|] == rows;
  }

  lemma GoodRowsMore(recs: seq<PayloadRecord>, s: Settings, rows: seq<Row>, row: Row)
    requires GoodRows(recs, s, rows, |rows|) && |rows| < |recs| && GoodRow(s, recs[|rows|], row)
    ensures GoodRows(recs, s, rows + [row], if IsFailure(row) then |rows| else |rows| + 1)
  {
    hide GoodRow, IsFailure;
  }

  /** The row a step adds, if any. */
  lemma StepRow(recs: seq<PayloadRecord>, s: Settings, r: Run, e: Event)
    requires (r.phase.Polling? ==> s.advanceHead) && Step(recs, s, r, e).phase != Violation
    ensures var t := Step(recs, s, r, e);
            (t.rows == r.rows && Index(t.phase) == Index(r.phase) && !(t.phase.Halted? && AddsRow(t.phase.failure)))
            || (Index(r.phase) < |recs| && |t.rows| == |r.rows| + 1 && t.rows == r.rows + [t.rows[|r.rows|]]
                && GoodRow(s, recs[Index(r.phase)], t.rows[|r.rows|]))
  {
    hide NewPayloadParams, Chained, Within, PollDue, Ms;
  }

  lemma StepKeepsBooks(recs: seq<PayloadRecord>, s: Settings, r: Run, e: Event)
    requires InRange(recs, s, r.phase) && Books(recs, s, r) && Step(recs, s, r, e).phase != Violation
    ensures Books(recs, s, Step(recs, s, r, e))
  {
    hide NewPayloadParams, Chained, Within, PollDue, GoodRow, GoodRows, PayloadTimes, FcuTimes, SyncTimes, Ms;
    var t := Step(recs, s, r, e);
    StepRow(recs, s, r, e);
    if t.rows != r.rows {
      StepWithRow(recs, s, r, e, t.rows[|r.rows|]);
    }
  }

  lemma StepWithRow(recs: seq<PayloadRecord>, s: Settings, r: Run, e: Event, row: Row)
    requires InRange(recs, s, r.phase) && Books(recs, s, r) && Step(recs, s, r, e).phase != Violation
    requires Step(recs, s, r, e).rows == r.rows + [row]
    requires Index(r.phase) < |recs| && GoodRow(s, recs[Index(r.phase)], row)
    ensures Books(recs, s, Step(recs, s, r, e))
  {
    hide NewPayloadParams, Chained, Within, PollDue, GoodRow, GoodRows, PayloadTimes, FcuTimes, SyncTimes, Ms;
    assert Step(recs, s, r, e).rows[|r.rows|] == row;
    RowsOneMore(r.rows, row);
    GoodRowsMore(recs, s, r.rows, row);
  }

  /**
   The books balance in every run: rows stand in record order, only the last can be a
   failure, and the three latency lists are what the rows show, but for a payload whose
   polling is under way or threw.
   */
  lemma {:induction false} BooksBalance(recs: seq<PayloadRecord>, s: Settings, events: seq<Event>)
    requires After(recs, s, events).phase != Violation
    ensures Books(recs, s, After(recs, s, events))
  {
    hide Step, GoodRow;
    if events != [] {
      var before, e := events[..|events| - 1], events[|events| - 1];
      ViolationStays(recs, s, before, e);
      BooksBalance(recs, s, before);
      PayloadsInOrder(recs, s, before);
      StepKeepsBooks(recs, s, After(recs, s, before), e);
    }
  }

  lemma {:induction false} OneTimeARow(rows: seq<Row>)
    ensures |PayloadTimes(rows)| == |rows|
  {
    if rows != [] {
      OneTimeARow(rows[..|rows| - 1]);
    }
  }

  /** A payload whose record has no row yet, or never gets one: it is being polled, or its last poll threw. */
  predicate PayloadWithoutRow(p: Phase, events: seq<Event>) {
    p.Polling?
    || (p.Halted? && p.failure.EngineError? && p.sent && events != [] && events[|events| - 1].call.Forkchoice?)
  }

  /** The payload latencies are those of the rows exactly but for such a payload; and then there is one more. */
  lemma LatenciesMatchRowsExactlyIf(recs: seq<PayloadRecord>, s: Settings, events: seq<Event>)
    requires After(recs, s, events).phase != Violation
    ensures var r := After(recs, s, events);
            (r.payloadMs == PayloadTimes(r.rows) <==> !PayloadWithoutRow(r.phase, events))
            && |r.payloadMs| == |r.rows| + if PayloadWithoutRow(r.phase, events) then 1 else 0
  {
    hide Step, After, GoodRows, FcuTimes, SyncTimes, PayloadTimes, Ms;
    var r := After(recs, s, events);
    BooksBalance(recs, s, events);
    OneTimeARow(r.rows);
    if r.phase.Halted? && r.phase.failure.EngineError? {
      HaltKeepsTimes(recs, s, events);
    }
  }

  /** A call that threw left rows and latencies as they were before it. */
  lemma HaltKeepsTimes(recs: seq<PayloadRecord>, s: Settings, events: seq<Event>)
    requires After(recs, s, events).phase.Halted? && After(recs, s, events).phase.failure.EngineError?
    ensures events != []
    ensures var r, before := After(recs, s, events), After(recs, s, events[..|events| - 1]);
            Books(recs, s, before)
            && r.rows == before.rows && r.payloadMs == before.payloadMs
            && (before.phase.Polling? <==> r.phase.sent && events[|events| - 1].call.Forkchoice?)
            && (before.phase.Polling? || before.phase.Ready? || before.phase.Based?)
  {
    hide NewPayloadParams, Chained, Within, PollDue, Books, Ms;
    if events != [] {
      var front, e := events[..|events| - 1], events[|events| - 1];
      assert After(recs, s, events) == Step(recs, s, After(recs, s, front), e);
      ViolationStays(recs, s, front, e);
      BooksBalance(recs, s, front);
    }
  }

  // ---------- what every run keeps: the polls of one block ----------

  /** How many forkchoice calls there are after the last newPayload. */
  function Polls(events: seq<Event>): (n: nat)
    ensures n <= |events|
  {
    if events == [] || events[|events| - 1].call.NewPayload? then 0 else Polls(events[..|events| - 1]) + 1
  }

  /** A reply that decides nothing: the block has neither landed nor failed. */
  predicate Pending(r: Reply) {
    r != Valid && r != Invalid && r != Threw
  }

  /** The last `n` events poll record `i` without a decision, after an accepted payload. */
  predicate PolledInVain(recs: seq<PayloadRecord>, i: nat, payload: Event, events: seq<Event>, n: nat) {
    i < |recs| && n < |events| && events[|events| - 1 - n] == payload
    && payload.call.NewPayload? && payload.reply in {Valid, Accepted, Syncing}
    && forall j | |events| - n <= j < |events| ::
         events[j].call == Forkchoice(recs[i].blockHash) && Pending(events[j].reply)
  }

  predicate PollsInTime(s: Settings, payload: Event, last: Option<real>, n: nat) {
    match last
    case None => n == 0
    case Some(t) => n > 0 && payload.end + 2.0 * (n - 1) as real <= t <= payload.end + s.waitSeconds
  }

  /** The two ways into polling: an accepted payload starts it, an undecided poll in time goes on with it. */
  lemma StepIntoPolling(recs: seq<PayloadRecord>, s: Settings, r: Run, e: Event)
    requires Step(recs, s, r, e).phase.Polling?
    ensures var p := Step(recs, s, r, e).phase;
            p.i < |recs|
            && if r.phase.Polling? then
                 p == Polling(r.phase.i, r.phase.payload, Some(e.end)) && PollDue(p.payload, r.phase.last, e.begin)
                 && e.call == Forkchoice(recs[p.i].blockHash) && Pending(e.reply)
                 && e.end <= p.payload.end + s.waitSeconds
               else
                 p.payload == e && p.last == None && e.call.NewPayload? && e.reply in {Valid, Accepted, Syncing}
  {
    hide NewPayloadParams, Chained, Within, PollDue;
  }

  lemma {:induction false} PollingState(recs: seq<PayloadRecord>, s: Settings, events: seq<Event>, head: Option<string>)
    requires Honest(events, head) && After(recs, s, events).phase.Polling?
    ensures var p := After(recs, s, events).phase;
            PolledInVain(recs, p.i, p.payload, events, Polls(events))
            && PollsInTime(s, p.payload, p.last, Polls(events))
  {
    hide Step, HeadMoves;
    var before, e := events[..|events| - 1], events[|events| - 1];
    StepIntoPolling(recs, s, After(recs, s, before), e);
    if After(recs, s, before).phase.Polling? {
      PollingState(recs, s, before, head);
    }
  }

  /** The most polls a block can take: one at once, and one every two seconds of the wait. */
  function MaxPolls(waitSeconds: real): int {
    if waitSeconds < 0.0 then 1 else (waitSeconds / 2.0).Floor + 2
  }

  /** No block is polled more often than that, however the polls end. */
  lemma PollsAreBounded(recs: seq<PayloadRecord>, s: Settings, events: seq<Event>, e: Event, head: Option<string>)
    requires Honest(events, head) && After(recs, s, events).phase.Polling?
    requires After(recs, s, events + [e]).phase != Violation
    ensures 1 <= Polls(events + [e]) <= MaxPolls(s.waitSeconds)
  {
    hide NewPayloadParams, Chained, Within, HeadMoves;
    PollingState(recs, s, events, head);
    AfterOneMore(recs, s, events, e);
    PollCount(events, e, s.waitSeconds);
    var p := After(recs, s, events).phase;
    if p.last.Some? {
      assert (Polls(events) - 1) as real <= s.waitSeconds / 2.0;
    }
  }

  lemma PollCount(events: seq<Event>, e: Event, w: real)
    ensures Polls(events + [e]) == if e.call.NewPayload? then 0 else Polls(events) + 1
  {
    assert (events + [e])[..|events|] == events;
  }

  /**
   The calls for one block: whenever a record finishes, its accepted payload was followed
   by forkchoices to its own hash and nothing else, the last VALID and all before undecided.
   */
  lemma BlockShape(recs: seq<PayloadRecord>, s: Settings, events: seq<Event>, e: Event, head: Option<string>)
    requires s.advanceHead && Honest(events, head)
    requires After(recs, s, events + [e]).phase.Ready?
    ensures var p := After(recs, s, events).phase;
            p.Polling? && After(recs, s, events + [e]).phase == Ready(p.i + 1)
            && PolledInVain(recs, p.i, p.payload, events, Polls(events))
            && e.call == Forkchoice(recs[p.i].blockHash) && e.reply == Valid
  {
    hide NewPayloadParams, Chained, Within, HeadMoves, PollDue;
    AfterOneMore(recs, s, events, e);
    PollingState(recs, s, events, head);
  }

  /** A reply that takes the block or the head it was asked for. */
  predicate Accepts(e: Event) {
    e.reply == Valid || (e.call.NewPayload? && e.reply in {Accepted, Syncing})
  }

  /** The last call, if any, was not refused. Forkchoices answered otherwise before it are polls. */
  predicate NotRefused(events: seq<Event>) {
    events != [] ==> Accepts(events[|events| - 1])
  }

  /** Only a refusal halts a run. */
  lemma HaltsOnlyOnRefusal(recs: seq<PayloadRecord>, s: Settings, events: seq<Event>)
    requires After(recs, s, events).phase.Halted?
    ensures !NotRefused(events)
  {
    hide NewPayloadParams, Chained, Within, PollDue;
    if events != [] {
      var r := After(recs, s, events[..|events| - 1]);
      assert After(recs, s, events) == Step(recs, s, r, events[|events| - 1]);
    }
  }
}
