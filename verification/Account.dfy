/** What the rows of a run, and its end, say about the calls that were made. */
module Account {
  import opened Engine
  import opened Payload
  import opened Protocol
  import opened Records
  import opened Wrappers

  predicate Accepting(r: Reply) {
    r == Valid || r == Accepted || r == Syncing
  }

  predicate Undecided(r: Reply) {
    r != Valid && r != Invalid && r != Threw
  }

  /** Milliseconds, from times in seconds. */
  predicate Measures(ms: real, from: real, to: real) {
    ms == 1000.0 * to - 1000.0 * from
  }

  /**
   What a row says of its payload's call and of the call that settled the block: the payload
   itself, refused or taken for all that is asked, or else a poll of the forkchoice.
   */
  predicate Settles(s: Settings, row: Row, payload: Event, last: Event, polled: bool) {
    Measures(row.newPayloadMs, payload.begin, payload.end)
    && if !polled then
         row.fcuMs == None && row.syncWaitMs == None && payload.reply != Threw
         && (if Accepting(payload.reply) then !s.advanceHead && row.status == Landed(payload.reply)
             else row.status == Rejected(payload.reply))
       else
         s.advanceHead && Accepting(payload.reply) && last.reply != Threw
         && if last.reply == Valid then
              row.fcuMs.Some? && Measures(row.fcuMs.value, last.begin, last.end)
              && (if payload.reply == Syncing then
                    row.status == SyncingLanded
                    && row.syncWaitMs.Some? && Measures(row.syncWaitMs.value, payload.end, last.end)
                  else row.status == Landed(payload.reply) && row.syncWaitMs == None)
            else
              row.fcuMs == None && row.syncWaitMs == None
              && (if last.reply == Invalid then row.status == ForkchoiceInvalid
                  else row.status == ForkchoiceTimeout(last.reply) && last.end > payload.end + s.waitSeconds)
  }

  /**
   Row `k` tells of the `k`-th payload, which is call `i`, and of the calls up to call `j`,
   which settled the block: between the two there are only undecided polls for it.
   */
  predicate Tells(recs: seq<PayloadRecord>, s: Settings, events: seq<Event>, row: Row, k: nat, i: nat, j: nat) {
    k < |recs| && i <= j < |events| && row.blockNumber == recs[k].blockNumber
    && events[i].call.NewPayload? && |Payloads(events[..i])| == k
    && (forall m | i < m <= j :: events[m].call == Forkchoice(recs[k].blockHash))
    && (forall m | i < m < j :: Undecided(events[m].reply))
    && Settles(s, row, events[i], events[j], i < j)
  }

  /** The row one step adds, if any, settles the payload that was pending. */
  lemma StepSettles(recs: seq<PayloadRecord>, s: Settings, r: Run, e: Event)
    requires InRange(recs, s, r.phase) && Books(recs, s, r) && Step(recs, s, r, e).phase != Violation
    requires r.phase.Polling? ==> Accepting(r.phase.payload.reply)
    ensures var t, k := Step(recs, s, r, e), Index(r.phase);
            t.rows == r.rows
            || (k < |recs| && k == |r.rows| && |t.rows| == k + 1 && t.rows[..k] == r.rows
                && t.rows[k].blockNumber == recs[k].blockNumber
                && (if r.phase.Polling? then
                      e.call == Forkchoice(recs[k].blockHash) && Settles(s, t.rows[k], r.phase.payload, e, true)
                    else SentBy(r.phase) == k && e.call.NewPayload? && Settles(s, t.rows[k], e, e, false)))
  {
    hide NewPayloadParams, Chained, Within, PollDue, GoodRows;
  }

  /** Where the last payload is, and how many there were before it. */
  lemma {:induction false} LastPayload(events: seq<Event>)
    requires Payloads(events) != []
    ensures var n := Polls(events);
            n < |events| && events[|events| - 1 - n].call.NewPayload?
            && |Payloads(events)| == |Payloads(events[..|events| - 1 - n])| + 1
  {
    var before := events[..|events| - 1];
    if !events[|events| - 1].call.NewPayload? {
      LastPayload(before);
      assert before[..|before| - 1 - Polls(before)] == events[..|events| - 1 - Polls(events)];
    }
  }

  lemma TellsStill(recs: seq<PayloadRecord>, s: Settings, events: seq<Event>, e: Event,
                   row: Row, k: nat, i: nat, j: nat)
    requires Tells(recs, s, events, row, k, i, j)
    ensures Tells(recs, s, events + [e], row, k, i, j)
  {
    hide Settles;
    assert (events + [e])[..i] == events[..i];
  }

  lemma NewRowTells(recs: seq<PayloadRecord>, s: Settings, events: seq<Event>, e: Event, head: Option<string>, k: nat)
    requires Honest(events, head) && After(recs, s, events + [e]).phase != Violation
    requires After(recs, s, events + [e]).rows != After(recs, s, events).rows
    requires k == |After(recs, s, events).rows|
    ensures var t := After(recs, s, events + [e]);
            |t.rows| == k + 1 && t.rows[..k] == After(recs, s, events).rows
            && exists i: nat, j: nat :: Tells(recs, s, events + [e], t.rows[k], k, i, j)
  {
    hide After, Step, Honest, Settles, Books, NewPayloadParams, Chained, Within;
    var r := After(recs, s, events);
    AfterOneMore(recs, s, events, e);
    ViolationStays(recs, s, events, e);
    BooksBalance(recs, s, events);
    PayloadsInOrder(recs, s, events);
    if r.phase.Polling? {
      PollingState(recs, s, events, head);
    }
    StepSettles(recs, s, r, e);
    var all, j, row := events + [e], |events|, Step(recs, s, r, e).rows[k];
    if r.phase.Polling? {
      LastPayload(events);
      var i := |events| - 1 - Polls(events);
      assert all[..i] == events[..i];
      assert forall m | i <= m < j :: all[m] == events[m];
      assert all[j] == e && events[i] == r.phase.payload;
      assert Tells(recs, s, all, row, k, i, j);
    } else {
      assert all[..j] == events && all[j] == e;
      assert Tells(recs, s, all, row, k, j, j);
    }
  }

  /** Every row of every run tells of the calls made for its record: what they took, and how they ended. */
  lemma {:induction false} RowsTellTheCalls(
    recs: seq<PayloadRecord>, s: Settings, events: seq<Event>, head: Option<string>, k: nat)
    requires Honest(events, head) && After(recs, s, events).phase != Violation
    requires k < |After(recs, s, events).rows|
    ensures exists i: nat, j: nat :: Tells(recs, s, events, After(recs, s, events).rows[k], k, i, j)
  {
    hide Step, Tells, HeadMoves;
    if events != [] {
      var before, e := events[..|events| - 1], events[|events| - 1];
      assert events == before + [e];
      ViolationStays(recs, s, before, e);
      var rows := After(recs, s, before).rows;
      if After(recs, s, events).rows != rows {
        NewRowTells(recs, s, before, e, head, |rows|);
        assert k < |rows| ==> After(recs, s, events).rows[k] == After(recs, s, events).rows[..|rows|][k];
      }
      if k < |rows| {
        RowsTellTheCalls(recs, s, before, head, k);
        var i: nat, j: nat :| Tells(recs, s, before, rows[k], k, i, j);
        TellsStill(recs, s, before, e, rows[k], k, i, j);
      }
    }
  }

  // ---------- what the chain check compares ----------

  /** A record after one with a block hash must name that as its parent; after one without, it is a first record. */
  lemma ChainedByHash(recs: seq<PayloadRecord>, i: nat)
    requires 0 < i < |recs|
    ensures match recs[i - 1].blockHash
            case None => Chained(recs, i) && IsFirst(recs, i)
            case Some(hash) => !IsFirst(recs, i) && (Chained(recs, i) <==> Parent(recs[i]) == Some(hash))
    ensures Chained(recs, 0) && IsFirst(recs, 0)
  {
  }

  // ---------- when polls are made ----------

  /** The first poll is made as soon as the payload is in, every other at least two seconds after the one before. */
  lemma PollsKeepTime(recs: seq<PayloadRecord>, s: Settings, events: seq<Event>, e: Event, head: Option<string>)
    requires Honest(events, head) && After(recs, s, events).phase.Polling?
    requires After(recs, s, events + [e]).phase != Violation
    ensures events != []
    ensures var last := events[|events| - 1];
            if last.call.NewPayload? then e.begin == last.end else last.end + 2.0 <= e.begin
  {
    hide NewPayloadParams, Chained, Within, HeadMoves;
    var before, last := events[..|events| - 1], events[|events| - 1];
    PollingState(recs, s, events, head);
    AfterOneMore(recs, s, events, e);
    StepIntoPolling(recs, s, After(recs, s, before), last);
    if After(recs, s, before).phase.Polling? {
      PollingState(recs, s, before, head);
    }
  }

  // ---------- when a run halts ----------

  /** A reply that ends the run: a call that threw, a payload or a base refused, or a poll that failed. */
  predicate Stops(s: Settings, polling: bool, payloadEnd: real, e: Event) {
    e.reply == Threw
    || (if e.call.NewPayload? then !Accepting(e.reply)
        else if !polling then e.reply != Valid
        else e.reply == Invalid || (Undecided(e.reply) && e.end > payloadEnd + s.waitSeconds))
  }

  /**
   A run halts exactly at a reply that ends it. In particular an undecided poll is followed
   by another one until the wait is over.
   */
  lemma HaltsExactlyIf(recs: seq<PayloadRecord>, s: Settings, events: seq<Event>, e: Event, head: Option<string>)
    requires Honest(events, head) && After(recs, s, events + [e]).phase != Violation
    ensures var polling, i := After(recs, s, events).phase.Polling?, |events| - 1 - Polls(events);
            (polling ==> 0 <= i)
            && (After(recs, s, events + [e]).phase.Halted?
                <==> Stops(s, polling, if polling then events[i].end else 0.0, e))
  {
    hide After, Honest, NewPayloadParams, Chained, Within, PollDue;
    AfterOneMore(recs, s, events, e);
    if After(recs, s, events).phase.Polling? {
      PollingState(recs, s, events, head);
    }
  }

  /** Each way to halt at a call, which comes after the end of a payload if it is a poll. */
  predicate Halts(recs: seq<PayloadRecord>, s: Settings, i: nat, failure: Failure, e: Event, payloadEnd: Option<real>)
    requires i < |recs|
  {
    match failure
    case EngineError => e.reply == Threw
    case BaseMismatch =>
      s.advanceHead && IsFirst(recs, i) && e.call == Forkchoice(Parent(recs[i])) && e.reply != Valid && e.reply != Threw
    case PayloadRejected => e.call.NewPayload? && !Accepting(e.reply) && e.reply != Threw
    case ForkchoiceRejected => e.call == Forkchoice(recs[i].blockHash) && e.reply == Invalid
    case ForkchoiceStuck =>
      e.call == Forkchoice(recs[i].blockHash) && Undecided(e.reply)
      && payloadEnd.Some? && e.end > payloadEnd.value + s.waitSeconds
    case _ => false
  }

  lemma StepHalts(recs: seq<PayloadRecord>, s: Settings, r: Run, e: Event)
    requires Step(recs, s, r, e).phase.Halted?
    ensures var p := Step(recs, s, r, e).phase;
            p.i < |recs|
            && Halts(recs, s, p.i, p.failure, e, if r.phase.Polling? then Some(r.phase.payload.end) else None)
  {
    hide NewPayloadParams, Chained, Within, PollDue, Ms;
  }

  /** When the payload ended that the last call, a poll, is about. */
  function PayloadEnd(events: seq<Event>): Option<real> {
    var n := Polls(events);
    if 0 < n < |events| then Some(events[|events| - 1 - n].end) else None
  }

  /** Why a run halted, by its last call; and if it gave up polling, the wait was over. */
  lemma HaltIsExplained(recs: seq<PayloadRecord>, s: Settings, events: seq<Event>, head: Option<string>)
    requires Honest(events, head) && After(recs, s, events).phase.Halted?
    ensures events != []
    ensures var p := After(recs, s, events).phase;
            p.i < |recs| && Halts(recs, s, p.i, p.failure, events[|events| - 1], PayloadEnd(events))
  {
    hide Step, HeadMoves, IsFirst, TextAt;
    if events != [] {
      var before, e := events[..|events| - 1], events[|events| - 1];
      StepHalts(recs, s, After(recs, s, before), e);
      if After(recs, s, before).phase.Polling? {
        PollingState(recs, s, before, head);
        assert e.call.Forkchoice? ==> PayloadEnd(events) == Some(After(recs, s, before).phase.payload.end);
      }
    }
  }
}
