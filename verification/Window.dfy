/** Pinning recent block numbers to a node that only serves a sliding band of state. */
module Window {
  import opened Wrappers

  // ---------- the node ----------

  /** A node at `head` serving the last `band` blocks serves state at block `b`. */
  predicate Serves(band: nat, head: nat, b: int) {
    0 <= b <= head && head - band < b
  }

  /** One availability probe: the block asked for, where the node's head was by then, and the answer. */
  datatype Probe = Probe(block: int, at: nat, ok: bool)

  /**
   A node whose head only grows, also between and during probes. A positive answer is
   true when it is given; a negative one may also be a failed request.
   */
  class Node {
    const band: nat
    var head: nat
    var probes: seq<Probe>
    var latest: seq<bool>  // the answers to probes of the `latest` tag
    var heads: seq<Option<nat>>  // the answers to requests for the head

    method Advance()
      modifies this`head
      ensures old(head) <= head
    {
      var blocks: int := *;
      head := if blocks > 0 then head + blocks else head;
    }

    method StateAvailable(block: int) returns (ok: bool)
      modifies this`head, this`probes
      ensures old(head) <= head
      ensures probes == old(probes) + [Probe(block, head, ok)]
      ensures ok ==> Serves(band, head, block)
    {
      Advance();
      var answered: bool := *;
      ok := answered && Serves(band, head, block);
      probes := probes + [Probe(block, head, ok)];
    }

    /** A probe of the `latest` tag: the head of that moment. */
    method LatestAvailable() returns (ok: bool)
      modifies this`head, this`latest
      ensures latest == old(latest) + [ok]
      ensures old(head) <= head
      ensures ok ==> Serves(band, head, head)
    {
      Advance();
      var answered: bool := *;
      ok := answered && Serves(band, head, head);
      latest := latest + [ok];
    }

    method FetchHead() returns (h: Option<nat>)
      modifies this`head, this`heads
      ensures heads == old(heads) + [h]
      ensures old(head) <= head
      ensures h.Some? ==> h.value == head
    {
      Advance();
      var answered: bool := *;
      h := if answered then Some(head) else None;
      heads := heads + [h];
    }
  }

  // ---------- the bisect ----------

  function Min(a: int, b: int): int { if a < b then a else b }

  function Max(a: int, b: int): int { if a > b then a else b }

  /** The deepest depth worth probing. */
  function Cap(head: nat, maxDepth: int): nat {
    Max(0, Min(maxDepth - 1, head))
  }

  /** Some probe of the block `depth` below `head` got the answer `ok`. */
  predicate Answered(probes: seq<Probe>, head: nat, depth: nat, ok: bool) {
    exists p :: p in probes && p.block == head - depth && p.ok == ok
  }

  /** Probes made while the head went from `from` to `to`, positive only where the block was served. */
  predicate Truthful(probes: seq<Probe>, band: nat, from: nat, to: nat) {
    forall p | p in probes :: from <= p.at <= to && (p.ok ==> Serves(band, p.at, p.block))
  }

  /** `depth` was probed successfully and the next depth in vain, where either lies within the search. */
  predicate IsEdge(probes: seq<Probe>, head: nat, cap: nat, depth: nat) {
    depth <= cap
    && (0 < depth ==> Answered(probes, head, depth, true))
    && (depth < cap ==> Answered(probes, head, depth + 1, false))
  }

  /** How often a range of `n` depths can be halved before one is left: log2 of n, rounded up. */
  function CeilLog2(n: nat): nat {
    if n <= 1 then 0 else 1 + CeilLog2((n + 1) / 2)
  }

  function Pow2(k: nat): nat {
    if k == 0 then 1 else 2 * Pow2(k - 1)
  }

  lemma {:induction false} CeilLog2Exact(n: nat, k: nat)
    ensures CeilLog2(n) <= k <==> n <= Pow2(k)
  {
    if k == 0 {
    } else if n > 1 {
      CeilLog2Exact((n + 1) / 2, k - 1);
    } else {
      Pow2Positive(k);
    }
  }

  lemma {:induction false} Pow2Positive(k: nat)
    ensures Pow2(k) >= 1
  {
    if k > 0 { Pow2Positive(k - 1); }
  }

  lemma {:induction false} CeilLog2Monotone(m: nat, n: nat)
    requires m <= n
    ensures CeilLog2(m) <= CeilLog2(n)
  {
    if n > 1 && m > 1 {
      CeilLog2Monotone((m + 1) / 2, (n + 1) / 2);
    }
  }

  method ProbeStateDepth(node: Node, head: nat, maxDepth: int) returns (depth: nat)
    modifies node`head, node`probes
    ensures old(node.head) <= node.head
    ensures old(node.probes) <= node.probes
    ensures var mine := node.probes[|old(node.probes)|..];
            IsEdge(mine, head, Cap(head, maxDepth), depth)
            && |mine| <= 1 + CeilLog2(Cap(head, maxDepth))
            && Truthful(mine, node.band, old(node.head), node.head)
            && forall p | p in mine :: 0 <= p.block < head
  {
    hide Serves, Answered, Truthful;
    var hi := Cap(head, maxDepth);
    ghost var before, cap := node.probes, hi;
    if hi == 0 {
      TruthfulNone(node.band, old(node.head), node.head);
      assert node.probes[|before|..] == [];
      return 0;
    }
    var deepest := node.StateAvailable(head - hi);
    ghost var mine := [node.probes[|before|]];
    AnsweredStays([], mine[0], head);
    TruthfulStays([], mine[0], node.band, old(node.head), node.head, node.head);
    assert node.probes[|before|..] == [] + mine == mine;
    if deepest {
      return hi;
    }
    var lo := 0;
    while hi - lo > 1
      invariant 0 <= lo < hi <= cap
      invariant node.probes == before + mine && old(node.head) <= node.head
      invariant 0 < lo ==> Answered(mine, head, lo, true)
      invariant Answered(mine, head, hi, false)
      invariant |mine| + CeilLog2(hi - lo) <= 1 + CeilLog2(cap)
      invariant Truthful(mine, node.band, old(node.head), node.head)
      invariant forall p | p in mine :: 0 <= p.block < head
    {
      var mid := (lo + hi) / 2;
      ghost var reached := node.head;
      var ok := node.StateAvailable(head - mid);
      ghost var p := node.probes[|node.probes| - 1];
      AnsweredStays(mine, p, head);
      TruthfulStays(mine, p, node.band, old(node.head), reached, node.head);
      mine := mine + [p];
      CeilLog2Monotone(if ok then hi - mid else mid - lo, (hi - lo + 1) / 2);
      if ok { lo := mid; } else { hi := mid; }
    }
    assert node.probes[|before|..] == mine;
    return lo;
  }

  lemma AnsweredStays(probes: seq<Probe>, p: Probe, head: nat)
    ensures forall d: nat, ok :: Answered(probes, head, d, ok) ==> Answered(probes + [p], head, d, ok)
    ensures forall d: nat :: p.block == head - d ==> Answered(probes + [p], head, d, p.ok)
  {
    forall d: nat, ok | Answered(probes, head, d, ok) ensures Answered(probes + [p], head, d, ok) {
      var q :| q in probes && q.block == head - d && q.ok == ok;
      assert q in probes + [p];
    }
    assert p in probes + [p];
  }

  lemma TruthfulNone(band: nat, from: nat, to: nat)
    ensures Truthful([], band, from, to)
  {
  }

  lemma TruthfulStays(probes: seq<Probe>, p: Probe, band: nat, from: nat, to: nat, now: nat)
    requires Truthful(probes, band, from, to) || probes == []
    requires from <= to <= now && p.at == now && (p.ok ==> Serves(band, now, p.block))
    ensures Truthful(probes + [p], band, from, now)
  {
    hide Serves;
  }

  /**
   Correct on a node that stands still: if answers follow some availability that ends at
   a depth and includes the head, the bisect returns the deepest served depth up to the cap.
   */
  lemma BisectIsExact(probes: seq<Probe>, head: nat, cap: nat, depth: nat, served: set<nat>)
    requires IsEdge(probes, head, cap, depth)
    requires 0 in served && forall d: nat, e: nat | e in served && d <= e :: d in served
    requires forall d: nat, ok | Answered(probes, head, d, ok) :: ok == (d in served)
    ensures forall d: nat | d <= cap :: d in served <==> d <= depth
  {
    if depth < cap {
      assert depth + 1 !in served;
    }
    if 0 < depth {
      assert depth in served;
    }
  }

  /** On the node of this model, standing still and answering every probe: the band's last block, or the cap. */
  lemma BisectFindsBand(probes: seq<Probe>, band: nat, head: nat, cap: nat, depth: nat)
    requires band >= 1 && cap <= head && IsEdge(probes, head, cap, depth)
    requires forall p | p in probes :: p.at == head && p.ok == Serves(band, head, p.block)
    ensures depth == if cap < band then cap else band - 1
  {
  }

  // ---------- the window ----------

  datatype Config = Config(recentBlockWindow: int, minPinnedWindow: int, refreshSec: real)

  /** Eight blocks, and one for every full twelve seconds between refreshes. */
  function SafetyMargin(refreshSec: real): int {
    8 + (refreshSec / 12.0).Floor
  }

  function Requested(cfg: Config, head: nat): (r: nat)
    ensures 1 <= r <= Max(1, head)
  {
    Max(1, Min(cfg.recentBlockWindow, head))
  }

  /** Whether a retention edge sits inside the requested window. */
  predicate EdgeFound(cfg: Config, head: nat, depth: nat) {
    depth < Requested(cfg, head) - 1
  }

  function WindowFor(cfg: Config, head: nat, depth: nat): nat {
    if EdgeFound(cfg, head, depth) then Max(1, depth + 1 - SafetyMargin(cfg.refreshSec)) else Requested(cfg, head)
  }

  method ComputeBlockWindow(node: Node, cfg: Config, head: nat)
      returns (window: nat, depth: nat, edge: bool)
    modifies node`head, node`probes
    ensures old(node.head) <= node.head
    ensures old(node.probes) <= node.probes
    ensures IsEdge(node.probes[|old(node.probes)|..], head, Requested(cfg, head) - 1, depth)
    ensures Truthful(node.probes[|old(node.probes)|..], node.band, old(node.head), node.head)
    ensures edge == EdgeFound(cfg, head, depth) && window == WindowFor(cfg, head, depth)
  {
    var requested := Requested(cfg, head);
    depth := ProbeStateDepth(node, head, requested);
    edge := depth < requested - 1;
    window := if !edge then requested else Max(1, depth + 1 - SafetyMargin(cfg.refreshSec));
  }

  // ---------- pinned blocks outlive the sliding band ----------

  /** Every one of the `window` blocks ending at `head` is served when the node's head is `now`. */
  predicate AllServed(band: nat, head: nat, window: nat, now: nat) {
    forall b: int | head - window < b <= head :: Serves(band, now, b)
  }

  /** How far the head may go before the oldest pinned block is dropped. */
  lemma ServedExactlyWhile(band: nat, head: nat, window: nat, now: nat)
    requires 1 <= window <= Max(1, head) && head <= now
    ensures AllServed(band, head, window, now) <==> now + window <= head + band
  {
    if AllServed(band, head, window, now) {
      assert Serves(band, now, head - window + 1);
    }
  }

  /**
   A window that was cut back from a retention edge stays served while the head advances by
   at most the margin since the successful probe at the edge, however the head moved during
   the bisect.
   */
  lemma EdgeWindowOutlivesBand(cfg: Config, band: nat, head: nat, depth: nat, at: nat, now: nat)
    requires Serves(band, at, head - depth)
    requires EdgeFound(cfg, head, depth) && depth + 1 - SafetyMargin(cfg.refreshSec) >= 1
    requires head <= at <= now <= at + SafetyMargin(cfg.refreshSec)
    ensures AllServed(band, head, WindowFor(cfg, head, depth), now)
  {
    ServedExactlyWhile(band, head, WindowFor(cfg, head, depth), now);
  }

  /**
   A probe at the edge tells no more of the band than that it reaches that deep. Every such
   band keeps the cut-back window through the margin exactly when the margin fits into the
   depth found, that is, when the window was not raised to one.
   */
  lemma EdgeWindowIsSafeExactlyIf(cfg: Config, head: nat, depth: nat, at: nat)
    requires EdgeFound(cfg, head, depth) && head <= at && SafetyMargin(cfg.refreshSec) >= 0
    ensures (forall band: nat, now: nat |
               Serves(band, at, head - depth) && at <= now <= at + SafetyMargin(cfg.refreshSec) ::
               AllServed(band, head, WindowFor(cfg, head, depth), now))
        <==> depth + 1 - SafetyMargin(cfg.refreshSec) >= 1
  {
    var margin := SafetyMargin(cfg.refreshSec);
    if depth + 1 - margin >= 1 {
      forall band: nat, now: nat | Serves(band, at, head - depth) && at <= now <= at + margin
        ensures AllServed(band, head, WindowFor(cfg, head, depth), now)
      {
        EdgeWindowOutlivesBand(cfg, band, head, depth, at, now);
      }
    } else {
      var band: nat, now: nat := at - head + depth + 1, at + margin;
      assert Serves(band, at, head - depth);
      ServedExactlyWhile(band, head, 1, now);
      assert WindowFor(cfg, head, depth) == 1 && !AllServed(band, head, 1, now);
    }
  }

  /** With a smallest window of one such a window is pinned, and its one block goes well within the margin. */
  lemma SmallEdgeWindowCanExpire()
    ensures var cfg := Config(1000, 1, 30.0);
            Serves(4, 5000, 5000 - 3) && EdgeFound(cfg, 5000, 3)
            && WindowFor(cfg, 5000, 3) == 1 >= cfg.minPinnedWindow
            && SafetyMargin(cfg.refreshSec) == 10 && !Serves(4, 5004, 5000)
  {
  }

  /**
   Without an edge the whole requested window is pinned and no margin is kept. Such a
   window survives every advance within the margin exactly when the band is that much
   deeper than what was asked for.
   */
  lemma FullWindowOutlivesBandExactlyIf(cfg: Config, band: nat, head: nat, at: nat)
    requires SafetyMargin(cfg.refreshSec) >= 0 && head <= at
    ensures (forall now: nat | at <= now <= at + SafetyMargin(cfg.refreshSec) ::
               AllServed(band, head, Requested(cfg, head), now))
        <==> at - head + Requested(cfg, head) + SafetyMargin(cfg.refreshSec) <= band
  {
    var margin := SafetyMargin(cfg.refreshSec);
    forall now: nat | at <= now
      ensures AllServed(band, head, Requested(cfg, head), now) <==> now + Requested(cfg, head) <= head + band
    {
      ServedExactlyWhile(band, head, Requested(cfg, head), now);
    }
    var worst: nat := at + margin;
    assert AllServed(band, head, Requested(cfg, head), worst) <==> worst + Requested(cfg, head) <= head + band;
  }

  /** A node that retains exactly the default window: nothing is cut off, and one block later a pinned block is gone. */
  lemma FullWindowCanExpireAtOnce()
    ensures var cfg := Config(1000, 8, 30.0);
            Serves(1000, 5000, 5000 - 999) && !EdgeFound(cfg, 5000, 999)
            && AllServed(1000, 5000, WindowFor(cfg, 5000, 999), 5000)
            && !AllServed(1000, 5000, WindowFor(cfg, 5000, 999), 5001)
  {
    ServedExactlyWhile(1000, 5000, 1000, 5000);
    ServedExactlyWhile(1000, 5000, 1000, 5001);
  }

  /** At most one block every twelve seconds: what can come in within `seconds`. */
  function MostBlocks(seconds: real): int {
    (seconds / 12.0).Floor + 1
  }

  /**
   Whatever the refresh interval, the margin covers a refresh that comes `late` seconds late,
   counted from the probe at the edge, exactly up to 84 seconds: until then no more blocks
   come in than the margin allows.
   */
  lemma MarginCoversExactlyUpTo84(late: real)
    ensures (forall refreshSec: real, elapsed: real | 0.0 <= refreshSec && 0.0 <= elapsed <= refreshSec + late ::
               MostBlocks(elapsed) <= SafetyMargin(refreshSec))
        <==> late <= 84.0
  {
    if late <= 84.0 {
      forall refreshSec: real, elapsed: real | 0.0 <= refreshSec && 0.0 <= elapsed <= refreshSec + late
        ensures MostBlocks(elapsed) <= SafetyMargin(refreshSec)
      {
        assert elapsed / 12.0 <= refreshSec / 12.0 + 7.0;
      }
    } else {
      var refreshSec := if late < 96.0 then 96.0 - late else 0.0;
      assert 0.0 <= refreshSec / 12.0 < 1.0 && (refreshSec + late) / 12.0 >= 8.0;
      assert MostBlocks(refreshSec + late) > SafetyMargin(refreshSec);
    }
  }

  /**
   Together: if blocks come at most every twelve seconds, a window cut back from an edge is
   served whole until a refresh that comes up to 84 seconds late.
   */
  lemma WindowLastsUntilRefresh(
    cfg: Config, band: nat, head: nat, depth: nat, at: nat, now: nat, late: real, elapsed: real)
    requires Serves(band, at, head - depth) && head <= at <= now
    requires EdgeFound(cfg, head, depth) && depth + 1 - SafetyMargin(cfg.refreshSec) >= 1
    requires cfg.refreshSec >= 0.0 && 0.0 <= elapsed <= cfg.refreshSec + late && late <= 84.0
    requires now - at <= MostBlocks(elapsed)
    ensures AllServed(band, head, WindowFor(cfg, head, depth), now)
  {
    MarginCoversExactlyUpTo84(late);
    assert MostBlocks(elapsed) <= SafetyMargin(cfg.refreshSec);
    EdgeWindowOutlivesBand(cfg, band, head, depth, at, now);
  }

  // ---------- the pinned tags over a whole load test ----------

  datatype Tag = Latest | Number(n: int)

  /** `[hex(head - i) for i in range(window)]`. */
  function PinnedTags(head: nat, window: nat): (tags: seq<Tag>)
    ensures |tags| == window
  {
    seq(window, i => Number(head - i))
  }

  /** Where pinned tags come from: the head they end at, the depth found, and the head at the probe there. */
  datatype Origin = Origin(head: nat, depth: nat, at: Option<nat>)

  datatype Pins = Unpinned | Pinned(origin: Origin)

  /** What `RECENT_BLOCKS` may hold on a node with this band, and why. */
  predicate Explained(cfg: Config, band: nat, recent: seq<Tag>, pins: Pins) {
    match pins
    case Unpinned => recent == [Latest]
    case Pinned(o) =>
      recent == PinnedTags(o.head, WindowFor(cfg, o.head, o.depth)) && o.depth < Requested(cfg, o.head)
      && (EdgeFound(cfg, o.head, o.depth) ==> WindowFor(cfg, o.head, o.depth) >= cfg.minPinnedWindow)
      && (0 < o.depth ==> o.at.Some?)
      && (o.at.Some? ==> o.head <= o.at.value && Serves(band, o.at.value, o.head - o.depth))
  }

  lemma ExplainedLatest(cfg: Config, band: nat)
    ensures Explained(cfg, band, [Latest], Unpinned)
  {
  }

  class LoadTest {
    const cfg: Config
    const node: Node
    var recent: seq<Tag>
    var initialHead: Option<nat>
    var latestHead: Option<nat>
    var aborted: bool
    ghost var pins: Pins

    ghost predicate Valid()
      reads this
    {
      Explained(cfg, node.band, recent, pins)
    }

    constructor (cfg: Config, node: Node)
      ensures Valid() && this.cfg == cfg && this.node == node && recent == [Latest]
    {
      this.cfg, this.node := cfg, node;
      recent, pins := [Latest], Unpinned;
      initialHead, latestHead, aborted := None, None, false;
    }

    /** Compute the window at `head`, and pin it unless it was cut back too far. */
    method Pin(head: nat) returns (ghost depth: nat)
      requires head <= node.head
      modifies node`head, node`probes, `recent, `pins
      ensures Valid() && old(node.head) <= node.head
      ensures old(node.probes) <= node.probes
      ensures IsEdge(node.probes[|old(node.probes)|..], head, Requested(cfg, head) - 1, depth)
      ensures PinnedFor(head, depth)
      ensures pins.Pinned? ==> pins.origin.depth == depth
    {
      var window, d, edge := ComputeBlockWindow(node, cfg, head);
      depth := d;
      if edge && window < cfg.minPinnedWindow {
        recent, pins := [Latest], Unpinned;
        return;
      }
      recent := PinnedTags(head, window);
      ghost var at: Option<nat> := None;
      if 0 < depth {
        ghost var p :| p in node.probes[|old(node.probes)|..] && p.block == head - depth && p.ok == true;
        at := Some(p.at);
      }
      pins := Pinned(Origin(head, depth, at));
    }

    /** The same when the head itself was just served. */
    method PinAtStart(head: nat) returns (ghost depth: nat)
      requires head <= node.head && Serves(node.band, node.head, head)
      modifies node`head, node`probes, `recent, `pins
      ensures Valid() && old(node.head) <= node.head
      ensures old(node.probes) <= node.probes
      ensures IsEdge(node.probes[|old(node.probes)|..], head, Requested(cfg, head) - 1, depth)
      ensures PinnedFor(head, depth)
      ensures pins.Pinned? ==> pins.origin.at.Some?
    {
      hide Serves, IsEdge, WindowFor, EdgeFound, PinnedTags, Requested;
      ghost var at := node.head;
      depth := Pin(head);
      if pins.Pinned? && pins.origin.at.None? {
        pins := Pinned(pins.origin.(at := Some(at)));
      }
    }

    /** The tags pinned for this head and depth: none exactly when an edge leaves too small a window. */
    ghost predicate PinnedFor(head: nat, depth: nat)
      reads this
    {
      if EdgeFound(cfg, head, depth) && WindowFor(cfg, head, depth) < cfg.minPinnedWindow
      then pins.Unpinned? && recent == [Latest]
      else pins.Pinned? && pins.origin.head == head && recent == PinnedTags(head, WindowFor(cfg, head, depth))
    }

    /** How a test starts, by the node's answers: the head, then `latest`, then the head by its number. */
    ghost predicate StartAnswers(how: Start, heads: seq<Option<nat>>, latest: seq<bool>, probes: seq<Probe>, depth: nat)
      reads this, node
    {
      probes <= node.probes
      && var mine := node.probes[|probes|..];
         if how.HeadUnknown? then node.heads == heads + [None] && node.latest == latest && mine == []
         else
           initialHead.Some? && node.heads == heads + [initialHead]
           && node.latest == latest + [!how.NoState?]
           && if how.NoState? then mine == []
              else
                mine != [] && mine[0].block == initialHead.value && mine[0].ok == how.Windowed?
                && if how.Windowed?
                   then IsEdge(mine[1..], initialHead.value, Requested(cfg, initialHead.value) - 1, depth)
                   else |mine| == 1
    }

    ghost function Shot(): Snapshot
      reads this
    {
      Snapshot(recent, pins)
    }

    /** The pinning part of `on_test_start`. */
    method OnTestStart() returns (how: Start, ghost depth: nat)
      requires Valid()
      modifies this, node
      ensures Valid() && StartStep(cfg, node.band, old(Shot()), Shot())
      ensures match how
              case HeadUnknown => recent == [Latest] && initialHead == old(initialHead) && latestHead == old(latestHead)
              case NoState => recent == old(recent) && aborted
              case HeadUnservable => recent == [Latest]
              case Windowed => initialHead.Some? && PinnedFor(initialHead.value, depth)
      ensures how.NoState? || aborted == old(aborted)
      ensures StartAnswers(how, old(node.heads), old(node.latest), old(node.probes), depth)
      ensures !how.HeadUnknown? ==>
                initialHead == latestHead && initialHead.Some? && old(node.head) <= initialHead.value <= node.head
      ensures how.Windowed? && pins.Pinned? ==> pins.origin.at.Some?
    {
      hide Explained, Serves, IsEdge, PinnedFor;
      ExplainedLatest(cfg, node.band);
      depth := 0;
      var fetched := node.FetchHead();
      if fetched.None? {
        recent, pins := [Latest], Unpinned;
        return HeadUnknown, depth;
      }
      var head := fetched.value;
      initialHead, latestHead := fetched, fetched;
      var latest := node.LatestAvailable();
      if !latest {
        aborted := true;
        return NoState, depth;
      }
      ghost var before := node.probes;
      var byNumber := node.StateAvailable(head);
      assert node.probes[|before|..] == [node.probes[|before|]];
      if !byNumber {
        recent, pins := [Latest], Unpinned;
        return HeadUnservable, depth;
      }
      ghost var first := node.probes;
      depth := PinAtStart(head);
      assert node.probes[|before|..][1..] == node.probes[|first|..];
      return Windowed, depth;
    }

    /**
     One round of the refresher: re-pin at the current head, unless the tag is `latest`
     already. It sleeps through the interval first, which cannot be negative.
     */
    method RefresherTick() returns (fetched: Option<nat>, ghost depth: nat)
      requires Valid() && cfg.refreshSec >= 0.0
      modifies this, node
      ensures Valid() && TickStep(cfg, node.band, old(Shot()), Shot())
      ensures initialHead == old(initialHead) && aborted == old(aborted)
      ensures node.heads == old(node.heads) + [fetched] && node.latest == old(node.latest)
      ensures latestHead == if fetched.None? then old(latestHead) else fetched
      ensures fetched.Some? ==> old(node.head) <= fetched.value <= node.head
      ensures if fetched.None? || old(recent) == [Latest] then recent == old(recent) && node.probes == old(node.probes)
              else PinnedFor(fetched.value, depth)
    {
      depth := 0;
      node.Advance();
      fetched := node.FetchHead();
      if fetched.None? {
        return;
      }
      latestHead := fetched;
      if recent == [Latest] {
        return;
      }
      depth := Pin(fetched.value);
    }
  }

  /** How a test starts: the head unknown, no state at all (abort), the head unservable, or a window computed. */
  datatype Start = HeadUnknown | NoState | HeadUnservable | Windowed

  /** With the default configuration an edge at depth 16 leaves `latest`, and one at depth 17 eight blocks. */
  lemma DefaultsPinFromDepth17(test: LoadTest, head: nat, depth: nat)
    requires test.cfg == Config(1000, 8, 30.0) && 1000 <= head && test.PinnedFor(head, depth)
    ensures depth <= 16 ==> test.recent == [Latest]
    ensures 17 <= depth < 999 ==> |test.recent| == depth - 9
    ensures 999 <= depth ==> |test.recent| == 1000
    ensures 17 <= depth ==> forall i | 0 <= i < |test.recent| :: test.recent[i] == Number(head - i)
  {
  }

  // ---------- every reachable state ----------

  datatype Snapshot = Snapshot(recent: seq<Tag>, pins: Pins)

  predicate StartStep(cfg: Config, band: nat, a: Snapshot, b: Snapshot) {
    b == a || Explained(cfg, band, b.recent, b.pins)
  }

  predicate TickStep(cfg: Config, band: nat, a: Snapshot, b: Snapshot) {
    b == a || (a.recent != [Latest] && Explained(cfg, band, b.recent, b.pins))
  }

  /** States that follow one another by test starts and refresher rounds, from an unpinned one. */
  predicate History(cfg: Config, band: nat, states: seq<Snapshot>) {
    states != [] && states[0] == Snapshot([Latest], Unpinned)
    && forall k | 0 < k < |states| ::
         StartStep(cfg, band, states[k - 1], states[k]) || TickStep(cfg, band, states[k - 1], states[k])
  }

  /** `["latest"]`, or block numbers: at least one, each one less than the one before, none below zero. */
  predicate WellPinned(tags: seq<Tag>) {
    tags == [Latest]
    || (tags != [] && tags[0].Number?
        && forall i | 0 <= i < |tags| :: tags[i].Number? && tags[i].n >= 0 && tags[i].n == tags[0].n - i)
  }

  /**
   In every reachable state the tags are well formed, if the configuration allows no others;
   and if they were cut back from an edge deeper than the margin, as
   with a smallest window of at least two they always are, every pinned block stays served
   while the head is within the margin of where it was at the probe.
   */
  lemma {:induction false} EveryStateIsSafe(cfg: Config, band: nat, states: seq<Snapshot>, k: nat, now: nat)
    requires History(cfg, band, states) && k < |states|
    ensures Explained(cfg, band, states[k].recent, states[k].pins)
    ensures StaysAboveZero(cfg) ==> WellPinned(states[k].recent)
    ensures states[k].pins.Pinned? ==>
              var o := states[k].pins.origin;
              EdgeFound(cfg, o.head, o.depth) && o.depth + 1 - SafetyMargin(cfg.refreshSec) >= 1
              && SafetyMargin(cfg.refreshSec) > 0 ==>
                o.at.Some? && (o.at.value <= now <= o.at.value + SafetyMargin(cfg.refreshSec) ==>
                  forall t | t in states[k].recent :: t.Number? && Serves(band, now, t.n))
    ensures states[k].pins.Pinned? && cfg.minPinnedWindow >= 2 ==>
              var o := states[k].pins.origin;
              EdgeFound(cfg, o.head, o.depth) ==> o.depth + 1 - SafetyMargin(cfg.refreshSec) >= 2
  {
    if k > 0 {
      EveryStateIsSafe(cfg, band, states, k - 1, now);
      assert StartStep(cfg, band, states[k - 1], states[k]) || TickStep(cfg, band, states[k - 1], states[k]);
    }
    TagsStayAboveZeroExactlyIf(cfg);
    if states[k].pins.Pinned? {
      var o := states[k].pins.origin;
      if EdgeFound(cfg, o.head, o.depth) && o.depth + 1 - SafetyMargin(cfg.refreshSec) >= 1 && o.at.Some?
         && o.at.value <= now <= o.at.value + SafetyMargin(cfg.refreshSec) {
        EdgeWindowOutlivesBand(cfg, band, o.head, o.depth, o.at.value, now);
      }
    }
  }

  /**
   When no tag can go below block zero: the interval is no less than -120, no edge can be
   found, or even the widest window cut back from one is too small to be pinned.
   */
  predicate StaysAboveZero(cfg: Config) {
    cfg.recentBlockWindow < 2 || cfg.refreshSec >= -120.0
    || cfg.recentBlockWindow - 1 - SafetyMargin(cfg.refreshSec) < cfg.minPinnedWindow
  }

  /** Whatever the node and its band, all the tags that may be pinned are well formed exactly on that condition. */
  lemma TagsStayAboveZeroExactlyIf(cfg: Config)
    ensures (forall band: nat, recent, pins | Explained(cfg, band, recent, pins) :: WellPinned(recent))
        <==> StaysAboveZero(cfg)
  {
    var margin := SafetyMargin(cfg.refreshSec);
    assert margin >= -2 <==> cfg.refreshSec >= -120.0;
    if StaysAboveZero(cfg) {
      forall band: nat, recent, pins | Explained(cfg, band, recent, pins) ensures WellPinned(recent) {
      }
    } else {
      var head: nat := cfg.recentBlockWindow;
      var o := Origin(head, head - 2, Some(head));
      var tags := PinnedTags(head, WindowFor(cfg, head, head - 2));
      assert Serves(head, head, 2) && Explained(cfg, head, tags, Pinned(o));
      assert |tags| > head + 1 && tags[head + 1] == Number(-1);
      assert !WellPinned(tags);
    }
  }

  /** Once the tag is `latest`, no number of refresher rounds leaves it. */
  lemma {:induction false} LatestIsForever(cfg: Config, band: nat, states: seq<Snapshot>)
    requires states != [] && states[0].recent == [Latest]
    requires forall k | 0 < k < |states| :: TickStep(cfg, band, states[k - 1], states[k])
    ensures forall k | 0 <= k < |states| :: states[k] == states[0]
  {
    if |states| > 1 {
      LatestIsForever(cfg, band, states[..|states| - 1]);
      var k := |states| - 1;
      assert states[..k][k - 1] == states[k - 1];
      assert TickStep(cfg, band, states[k - 1], states[k]);
    }
  }
}
