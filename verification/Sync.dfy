/** Detecting that a sync is complete from a stream of polls, and timing it. */
module Sync {
  import opened Wrappers

  datatype Mode = Lighthouse | Mock(pivot: Option<int>) | NoConsensus

  /** `eth_getBlockByNumber("latest")`: no answer, or a block whose fields may be missing or unreadable. */
  datatype Block = NoBlock | Block(number: Option<int>, timestamp: Option<int>)

  /**
   One poll: the `eth_syncing` answer (None when unreachable), the block reply should it be
   asked for, the time of day then, and the seconds elapsed when the cap is looked at.
   */
  datatype Poll = Poll(syncing: Option<bool>, block: Block, now: real, elapsed: real)

  datatype Config = Config(mode: Mode, freshnessSec: int, confirmations: int, maxSeconds: int)

  predicate HeadIsFresh(freshnessSec: int, p: Poll) {
    p.block.Block? && p.block.number.Some? && p.block.timestamp.Some?
    && p.block.number.value > 0 && p.now - p.block.timestamp.value as real < freshnessSec as real
  }

  predicate SyncHeadOk(cfg: Config, p: Poll, sawSyncing: bool) {
    match cfg.mode
    case Mock(pivot) =>
      p.block.Block? && p.block.number.Some?
      && (if pivot.Some? then p.block.number.value >= pivot.value - 32 else p.block.number.value > 0 && sawSyncing)
    case NoConsensus => p.block.Block? && p.block.number.Some? && p.block.number.value > 0 && sawSyncing
    case Lighthouse => HeadIsFresh(cfg.freshnessSec, p)
  }

  /** With a pivot, heads count from 32 below it. */
  lemma HeadCountsFromPivotMinus32(cfg: Config, p: Poll, pivot: int, saw: bool)
    requires cfg.mode == Mock(Some(pivot)) && p.block.Block? && p.block.number.Some?
    ensures p.block.number == Some(pivot - 32) ==> SyncHeadOk(cfg, p, saw)
    ensures p.block.number == Some(pivot - 33) ==> !SyncHeadOk(cfg, p, saw)
    ensures SyncHeadOk(cfg, p, saw) <==> pivot <= p.block.number.value + 32
  {
  }

  /** In a live sync a head counts that is above zero and younger than the bound, by less than which it may be. */
  lemma HeadCountsWhileFresh(cfg: Config, p: Poll, saw: bool)
    requires cfg.mode == Lighthouse && p.block.Block? && p.block.number.Some? && p.block.timestamp.Some?
    ensures p.block.number == Some(0) ==> !SyncHeadOk(cfg, p, saw)
    ensures p.block.number == Some(1) ==>
              (SyncHeadOk(cfg, p, saw) <==> p.now < (p.block.timestamp.value + cfg.freshnessSec) as real)
    ensures p.now == (p.block.timestamp.value + cfg.freshnessSec) as real ==> !SyncHeadOk(cfg, p, saw)
  {
  }

  /** Without either, a head above zero counts once the node was seen syncing; and no answer never does. */
  lemma HeadCountsAfterSyncing(cfg: Config, p: Poll, saw: bool)
    ensures (cfg.mode == NoConsensus || cfg.mode == Mock(None)) && p.block.Block? ==>
              (p.block.number == Some(0) ==> !SyncHeadOk(cfg, p, saw))
              && (p.block.number == Some(1) ==> (SyncHeadOk(cfg, p, saw) <==> saw))
    ensures p.block.NoBlock? || p.block.number.None? ==> !SyncHeadOk(cfg, p, saw)
  {
  }

  /** The cap is reached after just as many seconds, and never if it is zero. */
  lemma CapCountsFromItsSecond(cfg: Config, p: Poll)
    requires p.elapsed >= 0.0
    ensures cfg.maxSeconds == 0 ==> !CapReached(cfg, p)
    ensures cfg.maxSeconds == 60 ==> (CapReached(cfg, p) <==> 60.0 <= p.elapsed)
  {
  }

  /** Done(Some(t)) is a measured sync time, Done(None) one that means nothing; Pending ran out of polls. */
  datatype Outcome = Done(at: nat, syncTime: Option<real>) | TimedOut(at: nat) | Pending

  predicate CapReached(cfg: Config, p: Poll) {
    cfg.maxSeconds != 0 && p.elapsed >= cfg.maxSeconds as real
  }

  // ---------- what completion means ----------

  predicate SawSyncing(polls: seq<Poll>) {
    exists k | 0 <= k < |polls| :: polls[k].syncing == Some(true)
  }

  /** Poll `k` finds the node not syncing and its head in place. */
  predicate Confirms(cfg: Config, polls: seq<Poll>, k: nat)
    requires k < |polls|
  {
    polls[k].syncing == Some(false) && SyncHeadOk(cfg, polls[k], SawSyncing(polls[..k]))
  }

  /** Poll `k` finds the node syncing, or not syncing with a stale head. */
  predicate Resets(cfg: Config, polls: seq<Poll>, k: nat)
    requires k < |polls|
  {
    polls[k].syncing == Some(true)
    || (polls[k].syncing == Some(false) && !SyncHeadOk(cfg, polls[k], SawSyncing(polls[..k])))
  }

  /** How many of the polls from `from` to before `to` confirm. */
  function Confirmations(cfg: Config, polls: seq<Poll>, from: nat, to: nat): nat
    requires from <= to <= |polls|
  {
    if from == to then 0
    else Confirmations(cfg, polls, from, to - 1) + if Confirms(cfg, polls, to - 1) then 1 else 0
  }

  predicate Quiet(cfg: Config, polls: seq<Poll>, from: nat, to: nat)
    requires from <= to <= |polls|
  {
    forall k | from <= k < to :: !Resets(cfg, polls, k)
  }

  /**
   The sync is complete at poll `k`: it confirms, and with it a stretch of polls without a
   reset holds enough confirmations, whatever unreachable polls lie between them.
   */
  predicate CompleteAt(cfg: Config, polls: seq<Poll>, k: nat)
    requires k < |polls|
  {
    Confirms(cfg, polls, k)
    && exists from: nat | from <= k :: EnoughSince(cfg, polls, from, k)
  }

  predicate EnoughSince(cfg: Config, polls: seq<Poll>, from: nat, k: nat)
    requires k < |polls|
  {
    from <= k && Quiet(cfg, polls, from, k + 1) && Confirmations(cfg, polls, from, k + 1) >= cfg.confirmations
  }

  /** What the measurement must return for a stream of polls. */
  predicate IsMeasurement(cfg: Config, polls: seq<Poll>, o: Outcome) {
    match o
    case Done(k, time) =>
      k < |polls| && CompleteAt(cfg, polls, k) && NothingBefore(cfg, polls, k)
      && (time.Some? <==> SawSyncing(polls[..k + 1]))
    case TimedOut(k) =>
      k < |polls| && !CompleteAt(cfg, polls, k) && CapReached(cfg, polls[k]) && NothingBefore(cfg, polls, k)
    case Pending => NothingBefore(cfg, polls, |polls|)
  }

  /** No poll before `k` completes the sync or reaches the cap. */
  predicate NothingBefore(cfg: Config, polls: seq<Poll>, k: nat)
    requires k <= |polls|
  {
    forall j | 0 <= j < k :: !CompleteAt(cfg, polls, j) && !CapReached(cfg, polls[j])
  }

  // ---------- the counter ----------

  /** What the loop's counter holds after `k` polls: the confirmations since the last reset. */
  function Streak(cfg: Config, polls: seq<Poll>, k: nat): nat
    requires k <= |polls|
  {
    if k == 0 || Resets(cfg, polls, k - 1) then 0
    else Streak(cfg, polls, k - 1) + if Confirms(cfg, polls, k - 1) then 1 else 0
  }

  /** The stretch from `from` to before `k` has no reset, and the counter holds its confirmations. */
  predicate IsStreak(cfg: Config, polls: seq<Poll>, from: nat, k: nat)
    requires k <= |polls|
  {
    from <= k && Quiet(cfg, polls, from, k) && Confirmations(cfg, polls, from, k) == Streak(cfg, polls, k)
  }

  lemma {:induction false} StreakIsReached(cfg: Config, polls: seq<Poll>, k: nat)
    requires k <= |polls|
    ensures exists from: nat :: IsStreak(cfg, polls, from, k)
  {
    if k == 0 || Resets(cfg, polls, k - 1) {
      assert IsStreak(cfg, polls, k, k);
    } else {
      StreakIsReached(cfg, polls, k - 1);
      var from: nat :| IsStreak(cfg, polls, from, k - 1);
      assert IsStreak(cfg, polls, from, k);
    }
  }

  lemma {:induction false} StreakIsMost(cfg: Config, polls: seq<Poll>, from: nat, k: nat)
    requires from <= k <= |polls| && Quiet(cfg, polls, from, k)
    ensures Confirmations(cfg, polls, from, k) <= Streak(cfg, polls, k)
  {
    if from < k {
      StreakIsMost(cfg, polls, from, k - 1);
      assert !Resets(cfg, polls, k - 1);
    }
  }

  /** The counter decides completion: the debounce means what it says. */
  lemma CompleteIffStreak(cfg: Config, polls: seq<Poll>, k: nat)
    requires k < |polls|
    ensures CompleteAt(cfg, polls, k) <==> Confirms(cfg, polls, k) && Streak(cfg, polls, k + 1) >= cfg.confirmations
  {
    StreakIsReached(cfg, polls, k + 1);
    forall from: nat | EnoughSince(cfg, polls, from, k) ensures Streak(cfg, polls, k + 1) >= cfg.confirmations {
      StreakIsMost(cfg, polls, from, k + 1);
    }
    if Confirms(cfg, polls, k) && Streak(cfg, polls, k + 1) >= cfg.confirmations {
      var from: nat :| IsStreak(cfg, polls, from, k + 1);
      assert Streak(cfg, polls, k + 1) > 0;
      assert EnoughSince(cfg, polls, from, k);
    }
  }

  /** Polls that need not follow one another: a confirmation, an unreachable node, a confirmation. */
  lemma UnreachableDoesNotBreakTheRow(cfg: Config, good: Poll, lost: Poll)
    requires cfg.mode == Lighthouse && cfg.confirmations == 2
    requires good.syncing == Some(false) && HeadIsFresh(cfg.freshnessSec, good) && lost.syncing == None
    ensures var polls := [good, lost, good];
            CompleteAt(cfg, polls, 2) && !CompleteAt(cfg, polls, 1) && !CompleteAt(cfg, polls, 0)
  {
    var polls := [good, lost, good];
    CompleteIffStreak(cfg, polls, 0);
    CompleteIffStreak(cfg, polls, 2);
    assert Streak(cfg, polls, 1) == 1 && Streak(cfg, polls, 2) == 1;
  }

  /** A poll that finds the node syncing, or its head stale, breaks the row. */
  lemma SyncingOrStaleBreaksTheRow(cfg: Config, good: Poll, bad: Poll)
    requires cfg.mode == Lighthouse && cfg.confirmations == 2
    requires good.syncing == Some(false) && HeadIsFresh(cfg.freshnessSec, good)
    requires bad.syncing == Some(true) || (bad.syncing == Some(false) && !HeadIsFresh(cfg.freshnessSec, bad))
    ensures var polls := [good, bad, good, good];
            !CompleteAt(cfg, polls, 1) && !CompleteAt(cfg, polls, 2) && CompleteAt(cfg, polls, 3)
  {
    var polls := [good, bad, good, good];
    CompleteIffStreak(cfg, polls, 2);
    CompleteIffStreak(cfg, polls, 3);
    assert Streak(cfg, polls, 2) == 0 && Streak(cfg, polls, 3) == 1 && Streak(cfg, polls, 4) == 2;
  }

  lemma {:induction false} StreakAfterReset(cfg: Config, polls: seq<Poll>, j: nat, k: nat)
    requires j < k <= |polls| && Resets(cfg, polls, j)
    ensures Streak(cfg, polls, k) <= k - j - 1
  {
    if j < k - 1 {
      StreakAfterReset(cfg, polls, j, k - 1);
    }
  }

  lemma {:induction false} StreakTakesPolls(cfg: Config, polls: seq<Poll>, k: nat)
    requires k <= |polls|
    ensures Streak(cfg, polls, k) <= k
  {
    if k > 0 {
      StreakTakesPolls(cfg, polls, k - 1);
    }
  }

  /** Whether poll `j` is one of the last `cfg.confirmations` up to poll `k`. */
  predicate IsRecent(cfg: Config, j: nat, k: nat) {
    k < j + cfg.confirmations && j <= k
  }

  /** The confirming polls of a complete sync are consecutive exactly if none of as many last polls was unreachable. */
  lemma ConsecutiveExactlyIfReachable(cfg: Config, polls: seq<Poll>, k: nat)
    requires k < |polls| && CompleteAt(cfg, polls, k)
    ensures cfg.confirmations <= k + 1
    ensures (forall j: nat | IsRecent(cfg, j, k) :: Confirms(cfg, polls, j))
        <==> (forall j: nat | IsRecent(cfg, j, k) :: polls[j].syncing.Some?)
  {
    CompleteIffStreak(cfg, polls, k);
    StreakTakesPolls(cfg, polls, k + 1);
    forall j: nat | IsRecent(cfg, j, k) ensures Confirms(cfg, polls, j) <==> polls[j].syncing.Some? {
      if Resets(cfg, polls, j) {
        StreakAfterReset(cfg, polls, j, k + 1);
        assert false;
      }
      if polls[j].syncing.Some? {
        assert polls[j].syncing == Some(if polls[j].syncing.value then true else false);
      }
    }
  }

  // ---------- the measurement ----------

  /** The polling loop, over as many polls as there are; `endTime` is the clock when it is left. */
  method MeasureSyncTime(cfg: Config, polls: seq<Poll>, endTime: real) returns (o: Outcome)
    ensures IsMeasurement(cfg, polls, o)
    ensures o.Done? && o.syncTime.Some? ==> o.syncTime.value == endTime
  {
    var sawSyncing, consecutiveSynced := false, 0;
    for k := 0 to |polls|
      invariant sawSyncing == SawSyncing(polls[..k])
      invariant consecutiveSynced == Streak(cfg, polls, k)
      invariant NothingBefore(cfg, polls, k)
    {
      var p := polls[k];
      assert polls[..k + 1] == polls[..k] + [p];
      CompleteIffStreak(cfg, polls, k);
      if p.syncing == Some(true) {
        sawSyncing := true;
        consecutiveSynced := 0;
        assert polls[..k + 1][k].syncing == Some(true);
      } else if p.syncing == Some(false) {
        if SyncHeadOk(cfg, p, sawSyncing) {
          consecutiveSynced := consecutiveSynced + 1;
          if consecutiveSynced >= cfg.confirmations {
            return Done(k, if sawSyncing then Some(endTime) else None);
          }
        } else {
          consecutiveSynced := 0;
        }
      }
      if CapReached(cfg, p) {
        return TimedOut(k);
      }
    }
    return Pending;
  }

  /** The outcome is the only one: the measurement is a function of the polls. */
  lemma MeasurementIsUnique(cfg: Config, polls: seq<Poll>, o: Outcome, q: Outcome)
    requires IsMeasurement(cfg, polls, o) && IsMeasurement(cfg, polls, q)
    ensures o.Done? <==> q.Done?
    ensures o.TimedOut? <==> q.TimedOut?
    ensures o.Done? ==> o.at == q.at && (o.syncTime.Some? <==> q.syncTime.Some?)
    ensures o.TimedOut? ==> o.at == q.at
  {
  }

  /** A bound on how early it can be: `confirmations` polls at least, each not syncing. */
  lemma {:induction false} ConfirmationsTakePolls(cfg: Config, polls: seq<Poll>, from: nat, to: nat)
    requires from <= to <= |polls|
    ensures Confirmations(cfg, polls, from, to) <= to - from
  {
    if from < to {
      ConfirmationsTakePolls(cfg, polls, from, to - 1);
    }
  }

  /** In the modes that trust only a syncing node turned quiet, a completed measurement always has a time. */
  lemma FrozenModesAreMeasured(cfg: Config, polls: seq<Poll>, o: Outcome)
    requires cfg.mode == NoConsensus || cfg.mode == Mock(None)
    requires IsMeasurement(cfg, polls, o) && o.Done?
    ensures o.syncTime.Some?
  {
    var k: nat :| 0 <= k < o.at && polls[..o.at][k].syncing == Some(true);
    assert polls[..o.at + 1][k] == polls[k];
  }
}
